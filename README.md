# bestmuscat data scripts and listing logic, in Dafny

BestMuscat is a static directory of places in Muscat: restaurants, hotels,
schools, spas, clinics and malls. It is built from a JSON dataset by a set of
Python scripts, and a browser script renders the listing and detail pages.
This project models the parts of that system that make decisions, and proves
what they promise.

- **Menu back-fill** (`scripts/maint/add_menu_placeholders.py`).
  - Classifies the restaurants of `data/tools.json`.
  - Gives each restaurant a `menu` block, or completes the block it has.
  - Counts what it did, lists the changed entries, and in `--write` mode
    writes a backup and the updated file.
  - The data array is an `array<Json>` patched in place. The file system is a
    `Disk` class holding the parsed contents of each path.
- **Slugs** (`scripts/utils/slugify.py`): name and neighbourhood to a URL slug.
- **Record normalisation** (`scripts/ingest/normalize_places.py`): raw
  discovery records, one JSON line each, to the canonical place schema.
- **Provenance entries** (`scripts/utils/provenance.py`).
- **The `.env` loader** (`scripts/utils/env.py`): `os.environ` is the
  `Environment` class, whose map the loader updates.
- **The missing-fields report** (`scripts/qa/missing_fields_report.py`).
- **Per-category feeds** (`scripts/build/emit_category_feeds.py`).
- **The browser logic** (`assets/app.js`):
  - the opening-hours check and today's hours string;
  - the hours table of a place page;
  - the search and the four filters of the listing;
  - the schema.org type of a place.

JSON values are the `Json` datatype. A dict is an association list in
insertion order (`Keys`, `Lookup`, `Put`), because the scripts print and write
dicts in that order. Python and JavaScript truthiness, Python iteration and
JavaScript property reads are written out as functions. A Python exception
or a JavaScript `TypeError` is modelled as an error value (`Err`, `None`,
`Crashed`, `Aborted`), not excluded by a precondition. The one exception is
the listing filters of `app.js`, which read a typed view of each place; the
shapes outside that view are listed under "Left out".

The clock, `uuid.uuid4()` and the file system are parameters:
- `now` is a `Clock` (weekday with Sunday = 0, hour, minute) in the browser
  code, and an ISO string or a `Date` in the scripts;
- ids come from a function of the record's position;
- files are maps from path to parsed content.

Where the code and its written description differ, the model follows the code:
- `is_restaurant` accepts both `"restaurant"` and `"restaurants"`.
- When `categories` is falsy it falls back to `attributes.category`. A string
  there is iterated character by character, so it never names a restaurant
  (`MenuPlaceholders.StringCategoryIsNotRestaurant`).
- An existing dict `menu` is patched with up to three missing keys, not left
  alone.
- There is no currency option, and no status placeholder field.
- `normalize_places.py` records the raw `provider` value as the provenance
  `place_id` of a `"discovery"` entry.
- A dict day entry (`{"open": ...}`) makes `todayHoursString` throw, while the
  hours table shows the day as `Closed` (`OpeningHours.DictDayDisagrees`).

## Model

| member | source | states |
|---|---|---|
| MenuPlaceholders.FreshMenuFields | scripts/maint/add_menu_placeholders.py:18-45 | A fresh menu is `DEFAULT_MENU` with its six keys in order. It is stamped with `now` and has currency `OMR` and the default sections. |
| MenuPlaceholders.AnyRestaurantIff | scripts/maint/add_menu_placeholders.py:50-51 | `any(...)` over the normalised list holds iff some truthy element, stripped and lower-cased, is `restaurant` or `restaurants`. |
| MenuPlaceholders.IsRestaurantIff | scripts/maint/add_menu_placeholders.py:47-51 | When the classifier does not raise, an entry is a restaurant iff some truthy element of its category source names a restaurant. The source is `categories`, or `attributes.category` when `categories` is falsy. |
| MenuPlaceholders.StringCategoryIsNotRestaurant | scripts/maint/add_menu_placeholders.py:48-51 | An `attributes.category` string `"restaurant"` is iterated by character and is not a restaurant. |
| MenuPlaceholders.AddMissingLookup | scripts/maint/add_menu_placeholders.py:57-65 | Setting a key only when it is absent binds it to the new value, and leaves every other lookup as it was. |
| MenuPlaceholders.PatchMenuLookup | scripts/maint/add_menu_placeholders.py:57-65 | After the patch, each of the three minimal keys is its old value when present. Otherwise it is `now`, `OMR` or the default sections. Every other key is unchanged. |
| MenuPlaceholders.PatchMenuNeverOverwrites | scripts/maint/add_menu_placeholders.py:54-66 | The patch never changes an existing key, and never touches a key outside the three minimal ones. |
| MenuPlaceholders.PatchMenuCompletes | scripts/maint/add_menu_placeholders.py:54-66 | After the patch no minimal key is missing. The patch changes the menu iff one was missing. |
| MenuPlaceholders.EnsureOnlyMenu | scripts/maint/add_menu_placeholders.py:53-71 | `ensure_menu` changes only the entry's `menu` key. Other keys keep their values and order, and `menu` is appended when it was absent. |
| MenuPlaceholders.EnsureMenuBlock | scripts/maint/add_menu_placeholders.py:53-71 | A dict menu is patched, and changed holds iff a key was added, with label `updated-minor`. Any other menu is replaced by the fresh block, with changed true and label `added`. |
| MenuPlaceholders.EnsureIdempotent | scripts/maint/add_menu_placeholders.py:53-71 | A second `ensure_menu`, at any time, reports no change and leaves the entry as the first left it. |
| MenuPlaceholders.EnsureChangedIff | scripts/maint/add_menu_placeholders.py:53-71 | The reported change flag holds iff the entry differs from what it was. |
| MenuPlaceholders.EnsureKeepsClass | scripts/maint/add_menu_placeholders.py:47-71 | `ensure_menu` does not change whether the entry is a restaurant. |
| MenuPlaceholders.LabelKept | scripts/maint/add_menu_placeholders.py:106-109 | The action label (slug, else name, else `idx:i`) is the same before and after `ensure_menu`. |
| MenuPlaceholders.SetIfMissing | scripts/maint/add_menu_placeholders.py:57-65 | One `if key not in menu` step: its result is the menu with the key added if absent, and it reports whether it added one. |
| MenuPlaceholders.EnsureMenu | scripts/maint/add_menu_placeholders.py:53-71 | Patches `data[i]` in place to the entry `Ensure` specifies and returns its flag and label. It changes no other element. |
| MenuPlaceholders.ScanOne | scripts/maint/add_menu_placeholders.py:103-109 | One loop iteration does what `ScanEntry` specifies for the entry: counters, action and the entry left in the array. |
| MenuPlaceholders.Scan | scripts/maint/add_menu_placeholders.py:97-112 | The loop leaves the array, the two counters and the actions `ScanAll` specifies, or stops when an entry is not a dict. |
| MenuPlaceholders.ScanCrashIff | scripts/maint/add_menu_placeholders.py:102-112 | The loop ends the script iff some entry's visit raises outside the handler. |
| MenuPlaceholders.ScanEntriesResult | scripts/maint/add_menu_placeholders.py:102-112 | Each entry is left as its own visit leaves it, one for one. |
| MenuPlaceholders.ScanCounts | scripts/maint/add_menu_placeholders.py:97-109 | `restaurants` counts the counted entries, `changed` counts the changed ones, and there is one action per change. |
| MenuPlaceholders.ChangedIndicesAre | scripts/maint/add_menu_placeholders.py:102-109 | The indices of changed entries are exactly those entries, in increasing order. |
| MenuPlaceholders.ScanActions | scripts/maint/add_menu_placeholders.py:102-109 | The k-th action is the label and how-label of the k-th changed entry. |
| MenuPlaceholders.VisitEntryIs | scripts/maint/add_menu_placeholders.py:102-112 | On a dict the visit never raises. It counts exactly the restaurants and changes exactly the entries `ensure_menu` changes. It leaves the patched entry, labelled as before. |
| MenuPlaceholders.ScannedAllDicts | scripts/maint/add_menu_placeholders.py:102-112 | A scan that completes saw only dicts, and on each the visit agrees with the classifier and `ensure_menu`. |
| MenuPlaceholders.BackupPath | scripts/maint/add_menu_placeholders.py:127-128 | The backup path is never the data path. |
| MenuPlaceholders.PlanAbortsIff | scripts/maint/add_menu_placeholders.py:80-112 | `main` exits with an error iff the file is missing or unparsable, is not an array, or holds an entry that is not a dict. |
| MenuPlaceholders.PlanCounts | scripts/maint/add_menu_placeholders.py:97-116 | The printed totals: all entries, the restaurants, the entries `ensure_menu` changes, and one action per change. |
| MenuPlaceholders.PlanActions | scripts/maint/add_menu_placeholders.py:100-119 | Actions list exactly the changed entries, in index order, as (slug, else name, else `idx:i`; how). |
| MenuPlaceholders.PlanUpdated | scripts/maint/add_menu_placeholders.py:102-109 | The updated array holds every restaurant as `ensure_menu` leaves it and every other entry unchanged. |
| MenuPlaceholders.PlanWritesIff | scripts/maint/add_menu_placeholders.py:121-125 | There is something to write iff the scan completes and some restaurant changes. |
| MenuPlaceholders.RerunChangesNothing | scripts/maint/add_menu_placeholders.py:97-123 | Running again on the written array, at any time, changes nothing. |
| MenuPlaceholders.ToWriteDiffers | scripts/maint/add_menu_placeholders.py:121-141 | What is written differs from what was read. |
| MenuPlaceholders.FilesAfterRun | scripts/maint/add_menu_placeholders.py:121-146 | No file changes unless `--write` is given and something changed. Then the backup holds the original contents and the data path the updated array, and no other file changes. |
| MenuPlaceholders.Run | scripts/maint/add_menu_placeholders.py:79-146 | Exit code 1 exactly when `main` aborts. The summary is the plan's. The disk ends as `FilesAfter` says, including the backup written twice. |
| MenuPlaceholders.Disk.constructor | scripts/maint/add_menu_placeholders.py:84-86 | The disk holds the given files. |
| Slug.AsciiFold | scripts/utils/slugify.py:10 | The folded text is ASCII, and ASCII text is left as it is. |
| Slug.HyphenateShape | scripts/utils/slugify.py:11 | Replacing non-`[a-z0-9]` runs by `-` gives only `[a-z0-9-]` and never `--`. A leading `-` comes from a leading non-alphanumeric. |
| Slug.CollapseHyphens | scripts/utils/slugify.py:12 | The `-{2,}` substitution leaves text without `--` unchanged. |
| Slug.Slugify | scripts/utils/slugify.py:5-12 | Every result is a slug: only `[a-z0-9-]`, no leading or trailing `-`, never `--`. |
| Slug.WordsEmpty | scripts/utils/slugify.py:11 | A text has no alphanumeric words iff it has no ASCII alphanumeric character. |
| Slug.FoldedSlugIsJoinedWords | scripts/utils/slugify.py:11-12 | The slug of folded text is its maximal alphanumeric runs joined by single hyphens. |
| Slug.SlugIsJoinedWords | scripts/utils/slugify.py:9-12 | The slug is the words of the lower-cased, folded name and neighbourhood, joined by single hyphens. |
| Slug.AlnumsSurviveInOrder | scripts/utils/slugify.py:9-11 | The alphanumerics of the slug are those of the folded input, in order. |
| Slug.NoAlnumGivesEmpty | scripts/utils/slugify.py:11 | Input with no ASCII alphanumeric after folding gives the empty slug. |
| Slug.SymbolsOnly | scripts/utils/slugify.py:11 | `slugify("***")` is `""`. |
| Slug.NoNeighborhoodIsName | scripts/utils/slugify.py:9 | An absent or empty neighbourhood gives the slug of the name alone. |
| Slug.StripTrailingSpace | scripts/utils/slugify.py:9 | `strip()` ignores the space `f"{name} "` appends. |
| Slug.SlugIsFixedByFolding | scripts/utils/slugify.py:9-10 | Stripping, lower-casing and folding leave a slug unchanged. |
| Slug.HyphenateKeepsSlug | scripts/utils/slugify.py:11 | A text of `[a-z0-9-]` without `--` and without a trailing `-` is fixed by the run replacement. |
| Slug.SlugifyIdempotent | scripts/utils/slugify.py:5-12 | `slugify(slugify(x)) == slugify(x)`. |
| Text.TrimSlice | scripts/utils/slugify.py:9 | `strip()` keeps a slice: all outside it is white space, and it neither starts nor ends with white space. |
| Text.TrimIdempotent | scripts/utils/slugify.py:9 | Stripping twice is stripping once. |
| Provenance.FormatDateIsIso | scripts/utils/provenance.py:14 | From year 1000 on, the date is written as 10 characters: digits, with `-` at positions 4 and 7. |
| Provenance.ParseFormatDate | scripts/utils/provenance.py:14 | Reading the written date back gives the date. |
| Provenance.FormatDateInjective | scripts/utils/provenance.py:14 | Different dates are written differently. |
| Provenance.MakeProvKeys | scripts/utils/provenance.py:9-15 | The entry has exactly the keys `provider`, `place_id`, `fields`, `terms_url`, `collected_at`, once each, in that order. |
| Provenance.MakeProvFields | scripts/utils/provenance.py:5-15 | Provider, place id and fields pass through unchanged. `terms_url` is null and `collected_at` is the date as text. |
| Provenance.MakeProvFieldsRoundTrip | scripts/utils/provenance.py:11 | The recorded field list reads back as the given list. |
| Provenance.CollectedAtIsIsoDate | scripts/utils/provenance.py:14 | `collected_at` is an ISO date naming the given day. |
| NormalizePlaces.NormalizeRecord | scripts/ingest/normalize_places.py:31-52 | A record converts iff it is an object whose name is a string or absent. Otherwise it fails as Python would. |
| NormalizePlaces.NormalizeRecordKeys | scripts/ingest/normalize_places.py:33-52 | The output has the nine schema keys, once each, in the order written. |
| NormalizePlaces.NormalizeRecordFields | scripts/ingest/normalize_places.py:32-51 | Fields of the output record: `id` is the given uuid; `slug` is `slugify(name)`; `name` is stripped; `categories` defaults to `[]`; `location` is the address, neighbourhood and coordinates record `Location(m)` and `actions` the website, phone and reservation record `Actions(m)` (their fields in `LocationActionsFields`); `hours` is the raw value when truthy, else `{}`; `last_updated` is `collected_at`. |
| NormalizePlaces.HoursTruthyOrEmpty | scripts/ingest/normalize_places.py:49 | Output hours are truthy or `{}`, and a truthy raw value is kept. |
| NormalizePlaces.LocationActionsFields | scripts/ingest/normalize_places.py:38-48 | `location` and `actions` have exactly their keys, in order, each copied from the raw record or null. |
| NormalizePlaces.NormalizeRecordProvenance | scripts/ingest/normalize_places.py:50 | Provenance is one entry: provider `discovery`, place id the raw `provider` (default `unknown`), fields the raw keys in order. |
| NormalizePlaces.SlugOfStrippedName | scripts/ingest/normalize_places.py:32-36 | The slug is also the slug of the stripped name stored in the record. |
| NormalizePlaces.NonBlank | scripts/ingest/normalize_places.py:28-30 | The lines read are exactly the lines that are not blank after strip, in file order (`Filter` of the lines by not `IsBlank`). |
| NormalizePlaces.NormalizeLines | scripts/ingest/normalize_places.py:28-53 | The loop writes and fails exactly as `Run` specifies. |
| NormalizePlaces.NormalizeMain | scripts/ingest/normalize_places.py:20-54 | A missing input leaves the output file as it was. Otherwise the output is what the loop writes. |
| NormalizePlaces.RunWritesNonBlankLines | scripts/ingest/normalize_places.py:28-53 | One record per non-blank line, in order, the k-th with the k-th uuid. All are written unless a line raises, and then the stop is at the first line that raises. |
| NormalizePlaces.BlankLinesIgnored | scripts/ingest/normalize_places.py:29-30 | Dropping the whitespace-only lines changes nothing. |
| Env.ParseLine | scripts/utils/env.py:17-20 | Definition of one line's reading: a line yields a pair iff it is not empty after strip, not a comment, and holds `=` (this mirrors the three guards; what the pair is, is stated by `Env.ParseLineSplitsAtFirst`). |
| Env.ParseLineSplitsAtFirst | scripts/utils/env.py:20 | The stripped line is key, `=`, value, with no `=` in the key. |
| Env.SkippedLineChangesNothing | scripts/utils/env.py:18-19 | Empty, comment and `=`-less lines change nothing. |
| Env.EmptyKeyIgnored | scripts/utils/env.py:21 | A line with an empty key changes nothing. |
| Env.ApplyLineKeeps | scripts/utils/env.py:20-22 | A line keeps every existing binding and adds at most its own pair. |
| Env.EnvAfterKeeps | scripts/utils/env.py:15-22 | No key is removed, and every pre-existing binding is kept. |
| Env.EnvAfterIsFirstWins | scripts/utils/env.py:15-22 | A key already set keeps its value. A new key is set iff some line binds it, and then to the value of the first such line. |
| Env.Environment.constructor | scripts/utils/env.py:12 | The environment holds the given map. |
| Env.Environment.LoadEnv | scripts/utils/env.py:12-22 | A missing file leaves the environment as it was. Otherwise it becomes `EnvAfter` of the file's lines. |
| MissingFieldsReport.Category | scripts/qa/missing_fields_report.py:31 | Taking the category raises only when `categories` is truthy. |
| MissingFieldsReport.CategoryIsFirst | scripts/qa/missing_fields_report.py:31 | The category is the first element of `categories`, or `""` when it is missing or empty. |
| MissingFieldsReport.RequiredFor | scripts/qa/missing_fields_report.py:33 | The lookup in `REQUIRED_FIELDS` raises iff the category is unhashable; a listed category gets its own row of `REQUIRED_FIELDS`, and only a listed category requires fields. |
| MissingFieldsReport.UnknownCategoryMissesNothing | scripts/qa/missing_fields_report.py:33 | A category not in the table yields no missing fields. |
| MissingFieldsReport.MissingFields | scripts/qa/missing_fields_report.py:32-35 | The inner loop builds `MissingOf`: the required fields the place lacks. |
| MissingFieldsReport.MissingOfIsRequiredAndFalsy | scripts/qa/missing_fields_report.py:33-35 | A field is missing iff it is required and absent or falsy. The missing list is a subsequence of the required list. |
| MissingFieldsReport.BuildReport | scripts/qa/missing_fields_report.py:29-37 | The outer loop builds `Report`, or the error the first failing place raises. |
| MissingFieldsReport.ReportIsLastMissing | scripts/qa/missing_fields_report.py:36-37 | A slug is reported iff some place with it misses a field. Its list is that of the last such place, and no slug repeats. |
| MissingFieldsReport.AddPlaceLookup | scripts/qa/missing_fields_report.py:36-37 | One place sets its slug's list when it misses something, and changes no other slug. |
| MissingFieldsReport.EmptyReportIffNothingMissing | scripts/qa/missing_fields_report.py:36-43 | The report is empty iff no place misses a field. |
| MissingFieldsReport.ReportMain | scripts/qa/missing_fields_report.py:23-43 | The printed outcome: no data file, the error raised, `All required fields present.`, or the report. |
| CategoryFeeds.CategoriesOf | scripts/build/emit_category_feeds.py:26 | A place without `categories` lists none. |
| CategoryFeeds.GroupByCategory | scripts/build/emit_category_feeds.py:24-27 | The nested loops build `Grouped`, or fail as Python would. |
| CategoryFeeds.GroupKeysAreDistinctCategories | scripts/build/emit_category_feeds.py:25-27 | The group keys are the distinct categories of all places, in first-seen order. |
| CategoryFeeds.GroupsAreMembers | scripts/build/emit_category_feeds.py:25-27 | A category's group holds each place once per time it lists the category, in dataset order. A category no place lists has no group. |
| CategoryFeeds.NoCategoriesNoGroup | scripts/build/emit_category_feeds.py:26 | A place listing no categories changes no group. |
| CategoryFeeds.TotalSizeIsCategoryCount | scripts/build/emit_category_feeds.py:25-27 | The sizes of all groups sum to the number of category entries, repeats included. |
| CategoryFeeds.FeedCountIsDistinctCategories | scripts/build/emit_category_feeds.py:28-32 | The number of feeds is the number of distinct categories. |
| CategoryFeeds.FeedsMain | scripts/build/emit_category_feeds.py:16-32 | `main` reports a missing file, the error raised, or the groups with their count. |
| OpeningHours.NumberOfDigits | assets/app.js:34 | `Number` reads a run of digits as its decimal value. |
| OpeningHours.MinutesOfNumbers | assets/app.js:33-36 | `h:m` reads as `h * 60 + m`. |
| OpeningHours.MinutesOfDigits | assets/app.js:33-36 | `"HH:MM"` in digits reads as `HH * 60 + MM`. |
| OpeningHours.MinutesOfTime | assets/app.js:33-36 | Every minute of the day written as `HH:MM` reads back as itself. |
| OpeningHours.InWindowSameDay | assets/app.js:57-60 | For open ≤ close the window holds iff open ≤ now ≤ close. |
| OpeningHours.InWindowOvernight | assets/app.js:61-65 | For open > close the window holds iff now ≥ open or now ≤ close. |
| OpeningHours.InWindowHalfRead | assets/app.js:55-65 | With one end unreadable (NaN), only the other end's comparison can hold. |
| OpeningHours.IsOpenNow | assets/app.js:45-69 | The loop with early return computes `OpenNow`. |
| OpeningHours.OpenNowCases | assets/app.js:45-53 | False when `hours` is falsy or today's entry is missing, not an array or empty. Otherwise the windows decide. |
| OpeningHours.AnyOpenIff | assets/app.js:54-68 | True iff the loop reaches a window that holds. It throws iff it reaches one it cannot destructure. |
| OpeningHours.AnyOpenShaped | assets/app.js:54-68 | For destructurable windows, open iff some window holds. |
| OpeningHours.AnyOpenReordered | assets/app.js:54-68 | The order of the windows does not matter. |
| OpeningHours.WindowTexts | assets/app.js:83 | `map` succeeds iff every window destructures, one text per window. |
| OpeningHours.TodayClosedIff | assets/app.js:77-84 | `Closed` iff `hours` is falsy or today's windows are empty. |
| OpeningHours.TodayStringWindows | assets/app.js:83 | String windows give `open–close` parts joined by `, `. |
| OpeningHours.HoursRows | assets/app.js:315-321 | The `forEach` loop builds `Rows` over Mon..Sun. |
| OpeningHours.RowsAre | assets/app.js:317-321 | One row per day, in order, each with that day's cell. |
| OpeningHours.HoursTableShape | assets/app.js:316-321 | The table has seven rows, Mon..Sun (the JS day after each), each showing that day's hours. |
| OpeningHours.TableDaysFromMonday | assets/app.js:316 | The table's days are the week from Monday. |
| OpeningHours.RowMatchesToday | assets/app.js:318-319 | For an array day, the table row shows what `todayHoursString` (lines 77-84) shows. |
| OpeningHours.DictDayDisagrees | assets/app.js:318-319 | A dict day makes `todayHoursString` throw (lines 82-83), while the table shows `Closed`. |
| Listings.SearchStep | assets/app.js:130-138 | The search applies only to a non-empty query, and only filters. |
| Listings.AwardsStep | assets/app.js:140-145 | The awards filter applies only to a non-empty selection and requires every selected award. |
| Listings.PriceStep | assets/app.js:147-152 | The price filter applies only to a non-empty selection and requires the symbol to be selected. |
| Listings.CuisinesStep | assets/app.js:154-159 | The cuisines filter applies only to a non-empty selection and requires some overlap. |
| Listings.NeighborhoodsStep | assets/app.js:161-166 | The neighbourhood filter applies only to a non-empty selection and requires the neighbourhood to be selected. |
| Listings.FilterPlaces | assets/app.js:127-166 | Reassigning `results` through the five filters keeps exactly the places that pass every active filter, in order. |
| Listings.FilteredPlaces | assets/app.js:127-166 | The result is a subsequence of the places, and a place is in it iff it passes. |
| Listings.NothingSelectedShowsAll | assets/app.js:127-166 | With nothing selected and a blank search, every place is shown. |
| Listings.TrimStartLower | assets/app.js:131 | Trimming commutes with lower-casing, at the start. |
| Listings.TrimEndLower | assets/app.js:131 | Trimming commutes with lower-casing, at the end. |
| Listings.LowerTwice | assets/app.js:131 | Lower-casing twice is lower-casing once. |
| Listings.SearchIgnoresCase | assets/app.js:131-136 | A lower-cased search box gives the same query, so the search ignores case. |
| Listings.SchemaTypeIff | assets/app.js:356-366 | The type is not `LocalBusiness` iff the first category is one the switch names, and `CategoryOfType` gives that category back. |
| Listings.TypeForInjective | assets/app.js:358-366 | Distinct named categories get distinct types. |
| Listings.TypedCategoriesAreRequired | assets/app.js:358-366 | The categories the switch names are those of the missing-fields table, in its order. |
| JsonValue.LookupDistinct | scripts/qa/missing_fields_report.py:37 | With distinct keys every member is what a lookup of its key finds. |
| JsonValue.Put | scripts/qa/missing_fields_report.py:37 | Assignment binds the key and changes no other key. |
| JsonValue.KeysPut | scripts/build/emit_category_feeds.py:27 | An existing key keeps its place, and a new key goes to the end. |
| JsonValue.PutKeepsDistinct | scripts/qa/missing_fields_report.py:37 | Assignment keeps the keys distinct. |
| JsonValue.PutSame | scripts/maint/add_menu_placeholders.py:57-65 | Assigning the value a key already has changes nothing. |
| JsonValue.PyIter | scripts/build/emit_category_feeds.py:26 | Definition of Python iteration, one clause per kind of value: `for x in v` walks a list's items, a string's characters and a dict's keys, and raises on other values. |

## Left out

- Unicode beyond Latin-1: `str.lower()`, `toLowerCase()` and NFKD folding are modelled for the Basic Latin and Latin-1 Supplement blocks. Folding drops every character above U+00FF, and multi-character case mappings are not modelled.
- OpeningHours.NumberOf: reads decimal integers with an optional sign. JavaScript's `Number` also reads fractions, exponents, hex and `Infinity`, which the model treats as NaN.
- OpeningHours.EndMinutes: a window end that is not a string reads as NaN. `String()` of an array end such as `["09:00"]` would give a time; nested arrays are not modelled.
- The text of a number in a window, `${o}`, is a parameter (`numText`), because JavaScript's number-to-string conversion is not modelled.
- A JavaScript object with a numeric `length` property, standing as a day's windows, is treated like any other object.
- Listings.MatchesSearch: the listing filters work on a typed view of each place (`Listing`), not on the raw JSON, so the `TypeError`s the search of `app.js` (lines 132-136) throws are not modelled. It throws on a place whose `name` is missing or not a string, on a truthy `cuisines` that is not an array, on a `cuisines` item that is not a string, and on a truthy `location.neighborhood` that is not a string. These places are outside the view.
- Listings.MatchesSearch and Listings.CuisineOverlap: in the view, `cuisines` is `Some` only for an array. The search tests `p.cuisines` for truthiness and the cuisine filter tests `Array.isArray(p.cuisines)`; the two agree on every value in the view, and differ only on a truthy non-array, on which the search throws.
- The rating sort of `renderList` is left out: it compares floating-point ratings.
- DOM reads and writes, `fetch`, the places cache, event listeners, HTML rendering and the JSON-LD `<script>` injection are left out. Only the type choice is modelled.
- JSON parsing and serialisation are abstracted. A file holds a parsed value, so the backup holds the same value as the original, not necessarily the same bytes.
- Python dict keys are compared as JSON values. Numeric identity across types (`1 == 1.0 == True`) is not modelled, and JSON objects with duplicate keys are not modelled.
- Provenance.FormatDate: writes years below 1000 without zero padding, as glibc's `strftime` does. The ISO-shape lemmas are stated from year 1000 on.
- Splitting a file into lines is not modelled: files are given as sequences of lines.
- Env.Environment.LoadEnv: `os.environ[key] = value` raises `ValueError` on a key or value holding a NUL character; this is not modelled, and the assignment always succeeds.
- CategoryFeeds.FeedsMain: `open(os.path.join(output_dir, f"{cat}.json"), "w")` (lines 29-30) raises `FileNotFoundError` for a category holding `/` (a directory that does not exist); files are not modelled, and such a run is reported as emitted.
- Printing to stdout and stderr is left out, except for the printed outcome of the missing-fields report.
- The feed file names `data/categories/<category>.json` and their collisions are left out. The feeds are the groups.
- Argument parsing and default paths are left out. The path and `--write` are parameters.
- The re-read of the original file in `add_menu_placeholders.py` cannot fail or see a different file, because nothing else writes to the disk concurrently.
- The clock (`datetime.utcnow`), `uuid.uuid4()` and the backup time stamp are parameters.
- The pass-through stage scripts, the discovery stubs, the schema validator and the placeholder media, sitemap, search-index and link-checker scripts are left out. They copy files, write constant output or call code that is not part of this model.
