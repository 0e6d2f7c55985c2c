/**
 * scripts/maint/add_menu_placeholders.py: back-fills a `menu` block onto the
 * restaurant entries of the dataset array, with dry-run and backup-before-write.
 *
 * The dataset is an array of JSON values changed in place, entry by entry, as
 * the script changes its list of dicts; the file system is a map from paths to
 * what their JSON files hold. The clock readings (`now_iso` and the backup
 * time stamp) are parameters.
 */
module MenuPlaceholders {
  import opened Wrappers
  import opened Text
  import opened JsonValue
  import opened Seqs

  // ---------------------------------------------------------------------
  // The default block

  /** `DEFAULT_MENU["menu_sections"]`: one "Popular" section with one example dish. */
  const DefaultSections: Json := JArr([JObj([
    ("title", JStr("Popular")),
    ("items", JArr([JObj([
      ("name", JStr("Example Dish")),
      ("desc", JStr("Short description of the dish.")),
      ("price", JNum(35, -1)),
      ("spicy", JBool(false)),
      ("veg", JBool(false)),
      ("tags", JArr([]))])]))])])

  /** A block with DEFAULT_MENU's keys, in its key order, holding the given values. */
  function MenuBlock<V>(version: V, source: V, currency: V, checked: V, sections: V, notes: V): seq<(string, V)> {
    [("menu_version", version), ("menu_source", source), ("price_currency", currency),
     ("menu_last_checked", checked), ("menu_sections", sections), ("menu_notes", notes)]
  }

  const MenuKeys: seq<string> :=
    ["menu_version", "menu_source", "price_currency", "menu_last_checked", "menu_sections", "menu_notes"]

  /** `DEFAULT_MENU`. */
  const DefaultMenu: seq<(string, Json)> := MenuBlock(
    JNum(1, 0),
    JObj([("type", JStr("manual")), ("url", JStr(""))]),
    JStr("OMR"),
    JNull,
    DefaultSections,
    JStr("Placeholder added automatically."))

  /** A deep copy of DEFAULT_MENU whose `menu_last_checked` is then set to `now`. */
  function FreshMenu(now: string): seq<(string, Json)> {
    Put(DefaultMenu, "menu_last_checked", JStr(now))
  }

  lemma MenuBlockKeys<V>(version: V, source: V, currency: V, checked: V, sections: V, notes: V)
    ensures Keys(MenuBlock(version, source, currency, checked, sections, notes)) == MenuKeys
    ensures DistinctKeys(MenuBlock(version, source, currency, checked, sections, notes))
  {
    assert Distinct(MenuKeys);
  }

  lemma MenuBlockLookups<V>(version: V, source: V, currency: V, checked: V, sections: V, notes: V)
    ensures Lookup(MenuBlock(version, source, currency, checked, sections, notes), "price_currency") == Some(currency)
    ensures Lookup(MenuBlock(version, source, currency, checked, sections, notes), "menu_last_checked") == Some(checked)
    ensures Lookup(MenuBlock(version, source, currency, checked, sections, notes), "menu_sections") == Some(sections)
  {
    var b := MenuBlock(version, source, currency, checked, sections, notes);
    MenuBlockKeys(version, source, currency, checked, sections, notes);
    LookupDistinct(b);
    assert Lookup(b, b[2].0) == Some(b[2].1);
    assert Lookup(b, b[3].0) == Some(b[3].1);
    assert Lookup(b, b[4].0) == Some(b[4].1);
  }

  /** Setting `menu_last_checked` replaces that one value, in place. */
  lemma MenuBlockStamp<V>(version: V, source: V, currency: V, checked: V, sections: V, notes: V, x: V)
    ensures Put(MenuBlock(version, source, currency, checked, sections, notes), "menu_last_checked", x)
            == MenuBlock(version, source, currency, x, sections, notes)
  {
    var b := MenuBlock(version, source, currency, checked, sections, notes);
    MenuBlockKeys(version, source, currency, checked, sections, notes);
    assert forall j :: 0 <= j < 3 ==> b[j].0 == MenuKeys[j] != MenuKeys[3];
    PutAt(b, 3, "menu_last_checked", x);
  }

  /** The fresh block has DEFAULT_MENU's keys and values, except that it is stamped with `now`. */
  lemma FreshMenuFields(now: string)
    ensures FreshMenu(now) == MenuBlock(JNum(1, 0), JObj([("type", JStr("manual")), ("url", JStr(""))]), JStr("OMR"),
                                        JStr(now), DefaultSections, JStr("Placeholder added automatically."))
    ensures Keys(FreshMenu(now)) == MenuKeys
    ensures Lookup(FreshMenu(now), "menu_last_checked") == Some(JStr(now))
    ensures Lookup(FreshMenu(now), "price_currency") == Some(JStr("OMR"))
    ensures Lookup(FreshMenu(now), "menu_sections") == Some(DefaultSections)
  {
    var source := JObj([("type", JStr("manual")), ("url", JStr(""))]);
    var notes := JStr("Placeholder added automatically.");
    MenuBlockStamp(JNum(1, 0), source, JStr("OMR"), JNull, DefaultSections, notes, JStr(now));
    MenuBlockKeys(JNum(1, 0), source, JStr("OMR"), JStr(now), DefaultSections, notes);
    MenuBlockLookups(JNum(1, 0), source, JStr("OMR"), JStr(now), DefaultSections, notes);
  }

  // ---------------------------------------------------------------------
  // is_restaurant

  /**
   * The value whose elements `is_restaurant` examines: `categories` when truthy,
   * otherwise `attributes.category` when truthy, otherwise `[]`. None when
   * `attributes` is present but not a dict (the `.get` raises).
   */
  function CategorySource(entry: seq<(string, Json)>): Option<Json> {
    var cats := Get(entry, "categories");
    if PyTruthy(cats) then Some(cats)
    else match LookupOr(entry, "attributes", JObj([]))
      case JObj(attrs) =>
        var cat := Get(attrs, "category");
        Some(if PyTruthy(cat) then cat else JArr([]))
      case _ => None
  }

  /**
   * `str(c).strip().lower()` is a restaurant tag. Only a string can give one:
   * `str` of a number, a boolean, a list or a dict starts with a digit, `-`,
   * `T`, `F`, `[` or `{`.
   */
  predicate NamesRestaurant(c: Json) {
    c.JStr? && Lower(PyStrip(c.s)) in ["restaurant", "restaurants"]
  }

  /** `any(c in (...) for c in norm)` over the truthy elements. */
  predicate AnyRestaurant(items: seq<Json>) {
    items != [] && ((PyTruthy(items[0]) && NamesRestaurant(items[0])) || AnyRestaurant(items[1..]))
  }

  lemma {:induction false} AnyRestaurantIff(items: seq<Json>)
    ensures AnyRestaurant(items) <==> exists i :: 0 <= i < |items| && PyTruthy(items[i]) && NamesRestaurant(items[i])
  {
    if items != [] {
      AnyRestaurantIff(items[1..]);
      if !(PyTruthy(items[0]) && NamesRestaurant(items[0])) {
        forall i | 1 <= i < |items| ensures items[i] == items[1..][i - 1] {}
      }
    }
  }

  /** `is_restaurant(entry)`; None when it raises (the entry is then skipped). */
  function IsRestaurant(entry: seq<(string, Json)>): Option<bool> {
    match CategorySource(entry)
    case None => None
    case Some(cats) =>
      match PyIter(cats)
      case None => None
      case Some(items) => Some(AnyRestaurant(items))
  }

  /** A restaurant is an entry one of whose truthy category elements is a restaurant tag. */
  lemma IsRestaurantIff(entry: seq<(string, Json)>)
    requires IsRestaurant(entry).Some?
    ensures var items := PyIter(CategorySource(entry).value).value;
            IsRestaurant(entry) == Some(true) <==>
              exists i :: 0 <= i < |items| && PyTruthy(items[i]) && NamesRestaurant(items[i])
  {
    AnyRestaurantIff(PyIter(CategorySource(entry).value).value);
  }

  /** A string fallback is iterated character by character, so it never names a restaurant. */
  lemma StringCategoryIsNotRestaurant()
    ensures IsRestaurant([("attributes", JObj([("category", JStr("restaurant"))]))]) == Some(false)
  {
    var entry := [("attributes", JObj([("category", JStr("restaurant"))]))];
    assert Get(entry, "categories") == JNull;
    assert LookupOr(entry, "attributes", JObj([])) == JObj([("category", JStr("restaurant"))]);
    var items := PyIter(JStr("restaurant")).value;
    forall i | 0 <= i < |items| ensures !NamesRestaurant(items[i]) {
      assert items[i] == JStr(["restaurant"[i]]);
      assert |Lower(PyStrip(items[i].s))| <= 1;
    }
    AnyRestaurantIff(items);
  }

  // ---------------------------------------------------------------------
  // ensure_menu

  /** Some of the three keys a patch supplies is missing from an existing block. */
  predicate MenuIncomplete(menu: seq<(string, Json)>) {
    "menu_last_checked" !in Keys(menu) || "price_currency" !in Keys(menu) || "menu_sections" !in Keys(menu)
  }

  /** Sets `k` to `v` unless `k` is already a key: the `if ... not in` steps of the patch. */
  function AddMissing(menu: seq<(string, Json)>, k: string, v: Json): seq<(string, Json)> {
    if k in Keys(menu) then menu else Put(menu, k, v)
  }

  /** An existing dict `menu` with its missing minimal keys added, in the order the code adds them. */
  function PatchMenu(menu: seq<(string, Json)>, now: string): seq<(string, Json)> {
    AddMissing(AddMissing(AddMissing(menu, "menu_last_checked", JStr(now)), "price_currency", JStr("OMR")),
               "menu_sections", DefaultSections)
  }

  /** The entry `ensure_menu` leaves, with the `(changed, how)` pair it returns. */
  datatype Ensured = Ensured(entry: seq<(string, Json)>, changed: bool, how: string)

  function Ensure(entry: seq<(string, Json)>, now: string): Ensured {
    var menu: Option<Json> := Lookup(entry, "menu");
    if menu.Some? && menu.value.JObj? then
      Ensured(Put(entry, "menu", JObj(PatchMenu(menu.value.members, now))), MenuIncomplete(menu.value.members), "updated-minor")
    else
      Ensured(Put(entry, "menu", JObj(FreshMenu(now))), true, "added")
  }

  lemma AddMissingLookup(menu: seq<(string, Json)>, k: string, v: Json, k': string)
    ensures Lookup(AddMissing(menu, k, v), k') == if k' == k && k !in Keys(menu) then Some(v) else Lookup(menu, k')
  {
  }

  /** What a lookup of any key finds in the patched block. */
  lemma PatchMenuLookup(menu: seq<(string, Json)>, now: string, k: string)
    ensures Lookup(PatchMenu(menu, now), k)
            == if k == "menu_last_checked" && k !in Keys(menu) then Some(JStr(now))
               else if k == "price_currency" && k !in Keys(menu) then Some(JStr("OMR"))
               else if k == "menu_sections" && k !in Keys(menu) then Some(DefaultSections)
               else Lookup(menu, k)
  {
    var m1 := AddMissing(menu, "menu_last_checked", JStr(now));
    var m2 := AddMissing(m1, "price_currency", JStr("OMR"));
    AddMissingLookup(menu, "menu_last_checked", JStr(now), k);
    AddMissingLookup(menu, "menu_last_checked", JStr(now), "price_currency");
    AddMissingLookup(menu, "menu_last_checked", JStr(now), "menu_sections");
    AddMissingLookup(m1, "price_currency", JStr("OMR"), k);
    AddMissingLookup(m1, "price_currency", JStr("OMR"), "menu_sections");
    AddMissingLookup(m2, "menu_sections", DefaultSections, k);
  }

  /**
   * Patching never overwrites: every key already in the block keeps its value,
   * and no key other than the three appears.
   */
  lemma PatchMenuNeverOverwrites(menu: seq<(string, Json)>, now: string)
    ensures forall k :: k in Keys(menu) ==> Lookup(PatchMenu(menu, now), k) == Lookup(menu, k)
    ensures forall k :: k !in ["menu_last_checked", "price_currency", "menu_sections"] ==>
              Lookup(PatchMenu(menu, now), k) == Lookup(menu, k)
  {
    forall k {
      PatchMenuLookup(menu, now, k);
    }
  }

  /**
   * After a patch the three keys are present, and the block is left exactly as
   * it was iff none of them was missing.
   */
  lemma PatchMenuCompletes(menu: seq<(string, Json)>, now: string)
    ensures !MenuIncomplete(PatchMenu(menu, now))
    ensures PatchMenu(menu, now) == menu <==> !MenuIncomplete(menu)
  {
    var p := PatchMenu(menu, now);
    PatchMenuLookup(menu, now, "menu_last_checked");
    PatchMenuLookup(menu, now, "price_currency");
    PatchMenuLookup(menu, now, "menu_sections");
    if !MenuIncomplete(menu) {
      assert p == menu;
    }
  }

  /** `ensure_menu` touches only the entry's `menu` key, which keeps its position or goes last. */
  lemma EnsureOnlyMenu(entry: seq<(string, Json)>, now: string)
    ensures forall k :: k != "menu" ==> Lookup(Ensure(entry, now).entry, k) == Lookup(entry, k)
    ensures Keys(Ensure(entry, now).entry) == if "menu" in Keys(entry) then Keys(entry) else Keys(entry) + ["menu"]
  {
    var menu: Option<Json> := Lookup(entry, "menu");
    if menu.Some? && menu.value.JObj? {
      KeysPut(entry, "menu", JObj(PatchMenu(menu.value.members, now)));
    } else {
      KeysPut(entry, "menu", JObj(FreshMenu(now)));
    }
  }

  /**
   * The `menu` after `ensure_menu`: an existing dict block patched, reported as
   * changed iff a key was missing; anything else replaced by the fresh default
   * block, always reported as changed.
   */
  lemma EnsureMenuBlock(entry: seq<(string, Json)>, now: string)
    ensures var menu: Option<Json> := Lookup(entry, "menu");
            var r := Ensure(entry, now);
            if menu.Some? && menu.value.JObj? then
              && Lookup(r.entry, "menu") == Some(JObj(PatchMenu(menu.value.members, now)))
              && (r.changed <==> MenuIncomplete(menu.value.members))
              && (r.changed <==> PatchMenu(menu.value.members, now) != menu.value.members)
              && r.how == "updated-minor"
            else
              && Lookup(r.entry, "menu") == Some(JObj(FreshMenu(now)))
              && r.changed && r.how == "added"
  {
    var menu: Option<Json> := Lookup(entry, "menu");
    if menu.Some? && menu.value.JObj? {
      PatchMenuCompletes(menu.value.members, now);
    }
  }

  /** A second `ensure_menu`, at any time, reports no change and leaves the entry as it is. */
  lemma EnsureIdempotent(entry: seq<(string, Json)>, now: string, later: string)
    ensures var once := Ensure(entry, now).entry;
            Ensure(once, later) == Ensured(once, false, "updated-minor")
  {
    var once := Ensure(entry, now).entry;
    var menu: Option<Json> := Lookup(entry, "menu");
    var block := if menu.Some? && menu.value.JObj? then PatchMenu(menu.value.members, now) else FreshMenu(now);
    EnsureMenuBlock(entry, now);
    assert Lookup(once, "menu") == Some(JObj(block));
    if menu.Some? && menu.value.JObj? {
      PatchMenuCompletes(menu.value.members, now);
    } else {
      FreshMenuFields(now);
    }
    PatchMenuCompletes(block, later);
    PutSame(once, "menu", JObj(block));
  }

  /** `if k not in menu: menu[k] = v; changed = True`. */
  method SetIfMissing(menu: seq<(string, Json)>, k: string, v: Json) returns (m: seq<(string, Json)>, added: bool)
    ensures m == AddMissing(menu, k, v) && (added <==> k !in Keys(menu))
  {
    m, added := menu, false;
    if k !in Keys(m) {
      m := Put(m, k, v);
      added := true;
    }
  }

  /**
   * `ensure_menu(entry, now_iso)` on the dict at `data[i]`, changing it in place.
   * `data[i]` must be a dict: the scan only calls it on an entry `is_restaurant`
   * accepted.
   */
  method EnsureMenu(data: array<Json>, i: nat, now: string) returns (changed: bool, how: string)
    requires i < data.Length && data[i].JObj?
    modifies data
    ensures data[i] == JObj(Ensure(old(data[i]).members, now).entry)
    ensures changed == Ensure(old(data[i]).members, now).changed && how == Ensure(old(data[i]).members, now).how
    ensures forall j :: 0 <= j < data.Length && j != i ==> data[j] == old(data[j])
  {
    var entry := data[i].members;
    var menu: Option<Json> := Lookup(entry, "menu");
    if menu.Some? && menu.value.JObj? {
      var m := menu.value.members;
      var added1, added2, added3;
      m, added1 := SetIfMissing(m, "menu_last_checked", JStr(now));
      m, added2 := SetIfMissing(m, "price_currency", JStr("OMR"));
      m, added3 := SetIfMissing(m, "menu_sections", DefaultSections);
      changed := added1 || added2 || added3;
      AddMissingLookup(menu.value.members, "menu_last_checked", JStr(now), "price_currency");
      AddMissingLookup(menu.value.members, "menu_last_checked", JStr(now), "menu_sections");
      AddMissingLookup(AddMissing(menu.value.members, "menu_last_checked", JStr(now)), "price_currency", JStr("OMR"), "menu_sections");
      data[i] := JObj(Put(entry, "menu", JObj(m)));
      how := "updated-minor";
    } else {
      var block := DefaultMenu;
      block := Put(block, "menu_last_checked", JStr(now));
      data[i] := JObj(Put(entry, "menu", JObj(block)));
      changed, how := true, "added";
    }
  }

  // ---------------------------------------------------------------------
  // The scan loop of `main`

  /** `entry.get("slug") or entry.get("name") or f"idx:{i}"`. */
  function Label(entry: seq<(string, Json)>, i: nat): Json {
    var slug := Get(entry, "slug");
    if PyTruthy(slug) then slug
    else
      var name := Get(entry, "name");
      if PyTruthy(name) then name else JStr("idx:" + NatToString(i))
  }

  /** The entry is a dict that `is_restaurant` accepts. */
  predicate IsRestaurantEntry(entry: Json) {
    entry.JObj? && IsRestaurant(entry.members) == Some(true)
  }

  /** The entry is a restaurant on which `ensure_menu` reports a change. */
  predicate WillChange(entry: Json, now: string) {
    IsRestaurantEntry(entry) && Ensure(entry.members, now).changed
  }

  /**
   * What one iteration does with an entry: the entry as it leaves it, whether
   * it counted as a restaurant, and how it changed when it did.
   */
  datatype Visit = Visit(after: Json, restaurant: bool, how: Option<string>)

  /**
   * The body of the loop for one entry. None when the entry is not a dict:
   * `entry.get` raises in `is_restaurant` and again in the `except` handler,
   * which ends the script. A dict on which `is_restaurant` raises is skipped
   * like a non-restaurant.
   */
  function VisitEntry(entry: Json, now: string): Option<Visit> {
    if !entry.JObj? then None
    else if IsRestaurant(entry.members) == Some(true) then
      var e := Ensure(entry.members, now);
      Some(Visit(JObj(e.entry), true, if e.changed then Some(e.how) else None))
    else Some(Visit(entry, false, None))
  }

  function VisitAt(now: string): Json -> Option<Visit> {
    entry => VisitEntry(entry, now)
  }

  /** The label of an action, read from the entry as `ensure_menu` left it. */
  function LabelOf(entry: Json, i: nat): Json {
    if entry.JObj? then Label(entry.members, i) else JNull
  }

  /** The entries so far (as the loop left them), the two counters and the actions. */
  datatype Scanned = Scanned(entries: seq<Json>, restaurants: nat, changed: nat, actions: seq<(Json, string)>)

  /** One iteration, for entry `i`. */
  function ScanEntry(s: Scanned, entry: Json, i: nat, visit: Json -> Option<Visit>, labelOf: (Json, nat) -> Json): Option<Scanned> {
    match visit(entry)
    case None => None
    case Some(v) =>
      Some(Scanned(s.entries + [v.after],
                   s.restaurants + (if v.restaurant then 1 else 0),
                   s.changed + (if v.how.Some? then 1 else 0),
                   s.actions + (if v.how.Some? then [(labelOf(v.after, i), v.how.value)] else [])))
  }

  function ScanAll(entries: seq<Json>, visit: Json -> Option<Visit>, labelOf: (Json, nat) -> Json): Option<Scanned> {
    if entries == [] then Some(Scanned([], 0, 0, []))
    else match ScanAll(entries[..|entries| - 1], visit, labelOf)
      case None => None
      case Some(s) => ScanEntry(s, entries[|entries| - 1], |entries| - 1, visit, labelOf)
  }

  lemma ScanAllStep(entries: seq<Json>, i: nat, visit: Json -> Option<Visit>, labelOf: (Json, nat) -> Json)
    requires i < |entries|
    ensures ScanAll(entries[..i + 1], visit, labelOf)
            == match ScanAll(entries[..i], visit, labelOf)
               case None => None
               case Some(s) => ScanEntry(s, entries[i], i, visit, labelOf)
  {
    assert entries[..i + 1][..i] == entries[..i];
  }

  lemma {:induction false} ScanFailureSticks(entries: seq<Json>, visit: Json -> Option<Visit>, labelOf: (Json, nat) -> Json, k: nat)
    requires k <= |entries| && ScanAll(entries[..k], visit, labelOf).None?
    ensures ScanAll(entries, visit, labelOf).None?
    decreases |entries| - k
  {
    if k < |entries| {
      assert entries[..k + 1][..k] == entries[..k];
      ScanFailureSticks(entries, visit, labelOf, k + 1);
    } else {
      assert entries[..k] == entries;
    }
  }

  /** The body of the loop for the dict at `data[i]`. */
  method ScanOne(data: array<Json>, i: nat, now: string, ghost entries: seq<Json>,
                 restaurants: nat, changed: nat, actions: seq<(Json, string)>)
    returns (restaurants': nat, changed': nat, actions': seq<(Json, string)>)
    requires i < data.Length && data[i].JObj?
    modifies data
    ensures var r := ScanEntry(Scanned(entries, restaurants, changed, actions), old(data[i]), i, VisitAt(now), LabelOf);
            && r.Some? && r.value.entries == entries + [data[i]] && r.value.restaurants == restaurants'
            && r.value.changed == changed' && r.value.actions == actions'
    ensures forall j :: 0 <= j < data.Length && j != i ==> data[j] == old(data[j])
  {
    restaurants', changed', actions' := restaurants, changed, actions;
    if IsRestaurant(data[i].members) == Some(true) {
      restaurants' := restaurants' + 1;
      var didChange, how := EnsureMenu(data, i, now);
      if didChange {
        changed' := changed' + 1;
        actions' := actions' + [(Label(data[i].members, i), how)];
      }
    }
  }

  /**
   * The `for i, entry in enumerate(data)` loop, changing the entries of `data`
   * in place. Returns the counters and the actions, or None when the script dies
   * on a non-dict entry.
   */
  method Scan(data: array<Json>, now: string) returns (r: Option<(nat, nat, seq<(Json, string)>)>)
    modifies data
    ensures ScanAll(old(data[..]), VisitAt(now), LabelOf).None? <==> r.None?
    ensures r.Some? ==>
              var s := ScanAll(old(data[..]), VisitAt(now), LabelOf).value;
              data[..] == s.entries && r.value == (s.restaurants, s.changed, s.actions)
  {
    ghost var original := data[..];
    ghost var entries: seq<Json> := [];
    var restaurants, changed := 0, 0;
    var actions: seq<(Json, string)> := [];
    var i := 0;
    while i < data.Length
      invariant 0 <= i <= data.Length && |entries| == i
      invariant forall j :: i <= j < data.Length ==> data[j] == original[j]
      invariant forall j :: 0 <= j < i ==> data[j] == entries[j]
      invariant var s := ScanAll(original[..i], VisitAt(now), LabelOf);
                && s.Some? && s.value.entries == entries && s.value.restaurants == restaurants
                && s.value.changed == changed && s.value.actions == actions
    {
      var entry := data[i];
      ScanAllStep(original, i, VisitAt(now), LabelOf);
      if !entry.JObj? {
        ScanFailureSticks(original, VisitAt(now), LabelOf, i + 1);
        return None;
      }
      restaurants, changed, actions := ScanOne(data, i, now, entries, restaurants, changed, actions);
      entries := entries + [data[i]];
      i := i + 1;
    }
    assert original[..i] == original;
    assert data[..] == entries;
    r := Some((restaurants, changed, actions));
  }

  // ---------------------------------------------------------------------
  // What the scan does

  /** The script dies iff some entry cannot be visited. */
  lemma {:induction false} ScanCrashIff(entries: seq<Json>, visit: Json -> Option<Visit>, labelOf: (Json, nat) -> Json)
    ensures ScanAll(entries, visit, labelOf).None? <==> exists i :: 0 <= i < |entries| && visit(entries[i]).None?
  {
    if entries != [] {
      var init := entries[..|entries| - 1];
      ScanCrashIff(init, visit, labelOf);
      assert forall i :: 0 <= i < |init| ==> init[i] == entries[i];
    }
  }

  /** Every entry ends up as its visit leaves it. */
  lemma {:induction false} ScanEntriesResult(entries: seq<Json>, visit: Json -> Option<Visit>, labelOf: (Json, nat) -> Json)
    requires ScanAll(entries, visit, labelOf).Some?
    ensures var out := ScanAll(entries, visit, labelOf).value.entries;
            && |out| == |entries|
            && forall i :: 0 <= i < |entries| ==> visit(entries[i]).Some? && out[i] == visit(entries[i]).value.after
  {
    if entries != [] {
      ScanEntriesResult(entries[..|entries| - 1], visit, labelOf);
    }
  }

  /** The visit counts the entry as a restaurant. */
  predicate Counted(visit: Json -> Option<Visit>, entry: Json) {
    visit(entry).Some? && visit(entry).value.restaurant
  }

  /** The visit changes the entry. */
  predicate Changes(visit: Json -> Option<Visit>, entry: Json) {
    visit(entry).Some? && visit(entry).value.how.Some?
  }

  /** The restaurant counter counts the restaurants, the change counter the changes, one action each. */
  lemma {:induction false} ScanCounts(entries: seq<Json>, visit: Json -> Option<Visit>, labelOf: (Json, nat) -> Json)
    requires ScanAll(entries, visit, labelOf).Some?
    ensures var s := ScanAll(entries, visit, labelOf).value;
            && s.restaurants == |Filter(entries, e => Counted(visit, e))|
            && s.changed == |Filter(entries, e => Changes(visit, e))|
            && |s.actions| == s.changed
  {
    if entries != [] {
      var init := entries[..|entries| - 1];
      var last := entries[|entries| - 1];
      ScanCounts(init, visit, labelOf);
      AppendSplitLast([], entries);
      FilterAppend(init, last, e => Counted(visit, e));
      FilterAppend(init, last, e => Changes(visit, e));
    }
  }

  /** The positions of the entries the visit changes, in order. */
  function ChangedIndices(entries: seq<Json>, visit: Json -> Option<Visit>): seq<nat> {
    if entries == [] then []
    else ChangedIndices(entries[..|entries| - 1], visit)
         + if Changes(visit, entries[|entries| - 1]) then [|entries| - 1] else []
  }

  lemma {:induction false} ChangedIndicesAre(entries: seq<Json>, visit: Json -> Option<Visit>)
    ensures forall i :: i in ChangedIndices(entries, visit) <==> 0 <= i < |entries| && Changes(visit, entries[i])
    ensures forall k, l :: 0 <= k < l < |ChangedIndices(entries, visit)| ==>
              ChangedIndices(entries, visit)[k] < ChangedIndices(entries, visit)[l]
  {
    if entries != [] {
      var init := entries[..|entries| - 1];
      ChangedIndicesAre(init, visit);
      assert forall i :: 0 <= i < |init| ==> init[i] == entries[i];
      var before := ChangedIndices(init, visit);
      var idx := ChangedIndices(entries, visit);
      assert forall k :: 0 <= k < |before| ==> idx[k] == before[k] && before[k] in before;
    }
  }

  /** The actions are the changed entries in index order, each labelled as the loop left it. */
  lemma {:induction false} ScanActions(entries: seq<Json>, visit: Json -> Option<Visit>, labelOf: (Json, nat) -> Json)
    requires ScanAll(entries, visit, labelOf).Some?
    ensures var acts := ScanAll(entries, visit, labelOf).value.actions;
            var idx := ChangedIndices(entries, visit);
            && |acts| == |idx|
            && forall k :: 0 <= k < |idx| ==>
                 && idx[k] < |entries| && Changes(visit, entries[idx[k]])
                 && acts[k] == (labelOf(visit(entries[idx[k]]).value.after, idx[k]), visit(entries[idx[k]]).value.how.value)
  {
    if entries != [] {
      var init := entries[..|entries| - 1];
      ScanActions(init, visit, labelOf);
      assert forall i :: 0 <= i < |init| ==> init[i] == entries[i];
    }
  }

  /** `ensure_menu` keeps `slug` and `name`, so an action's labelOf is that of the entry as read. */
  lemma LabelKept(entry: seq<(string, Json)>, i: nat, now: string)
    ensures Label(Ensure(entry, now).entry, i) == Label(entry, i)
  {
    var after := Ensure(entry, now).entry;
    EnsureOnlyMenu(entry, now);
    assert Lookup(after, "slug") == Lookup(entry, "slug");
    assert Lookup(after, "name") == Lookup(entry, "name");
    LabelReads(after, entry, i);
  }

  /** An action's label depends only on what `slug` and `name` look up to. */
  lemma LabelReads(a: seq<(string, Json)>, b: seq<(string, Json)>, i: nat)
    requires Lookup(a, "slug") == Lookup(b, "slug") && Lookup(a, "name") == Lookup(b, "name")
    ensures Label(a, i) == Label(b, i)
  {
    assert Get(a, "slug") == Get(b, "slug");
    assert Get(a, "name") == Get(b, "name");
  }

  /**
   * What the loop does with one dict: a restaurant is counted and passed through
   * `ensure_menu`, and changes when that reports a change, labelled by its own
   * slug or name; any other dict is neither counted nor changed.
   */
  lemma VisitEntryIs(entry: Json, i: nat, now: string)
    requires entry.JObj?
    ensures VisitEntry(entry, now).Some?
    ensures Counted(VisitAt(now), entry) <==> IsRestaurantEntry(entry)
    ensures Changes(VisitAt(now), entry) <==> WillChange(entry, now)
    ensures VisitEntry(entry, now).value.after
            == if IsRestaurantEntry(entry) then JObj(Ensure(entry.members, now).entry) else entry
    ensures Changes(VisitAt(now), entry) ==>
              && LabelOf(VisitEntry(entry, now).value.after, i) == Label(entry.members, i)
              && VisitEntry(entry, now).value.how == Some(Ensure(entry.members, now).how)
  {
    if IsRestaurantEntry(entry) {
      LabelKept(entry.members, i, now);
    }
  }

  /** `did_change` is truthful: `ensure_menu` reports a change iff the entry is no longer what it was. */
  lemma EnsureChangedIff(entry: seq<(string, Json)>, now: string)
    ensures Ensure(entry, now).changed <==> Ensure(entry, now).entry != entry
  {
    var menu: Option<Json> := Lookup(entry, "menu");
    var r := Ensure(entry, now);
    EnsureMenuBlock(entry, now);
    if menu.Some? && menu.value.JObj? {
      if !r.changed {
        PutSame(entry, "menu", JObj(menu.value.members));
      } else {
        assert Lookup(r.entry, "menu") != Lookup(entry, "menu");
      }
    } else {
      assert Lookup(r.entry, "menu") != Lookup(entry, "menu");
    }
  }

  /** `is_restaurant` reads only the `categories` and `attributes` keys. */
  lemma IsRestaurantReads(a: seq<(string, Json)>, b: seq<(string, Json)>)
    requires Lookup(a, "categories") == Lookup(b, "categories")
    requires Lookup(a, "attributes") == Lookup(b, "attributes")
    ensures IsRestaurant(a) == IsRestaurant(b)
  {
    assert CategorySource(a) == CategorySource(b);
  }

  /** `ensure_menu` leaves `categories` and `attributes` alone, so a restaurant stays one. */
  lemma EnsureKeepsClass(entry: seq<(string, Json)>, now: string)
    ensures IsRestaurant(Ensure(entry, now).entry) == IsRestaurant(entry)
  {
    EnsureOnlyMenu(entry, now);
    IsRestaurantReads(Ensure(entry, now).entry, entry);
  }

  // ---------------------------------------------------------------------
  // main: reading the file, the scan, and the write-or-dry-run decision

  /** What `main` reports after the scan: `total`, the two counters and the actions. */
  datatype Summary = Summary(total: nat, restaurants: nat, changed: nat, actions: seq<(Json, string)>)

  /**
   * Where `main` ends: exit 1 (no file, a parse error, a non-array, or a
   * non-dict entry), a summary with nothing to write (`changed == 0`), or a
   * summary with the updated array to write.
   */
  datatype Outcome = Aborted | NothingToWrite(summary: Summary) | ToWrite(summary: Summary, updated: seq<Json>)

  /** What `path` holds on the disk, or None when it does not exist. */
  function FileAt(files: map<string, Content>, path: string): Option<Content> {
    if path in files then Some(files[path]) else None
  }

  /** The outcome of `main` on what the data file holds, at time `now`. */
  function Plan(content: Option<Content>, now: string): Outcome {
    if content.None? || content.value.Unparsable? || !content.value.value.JArr? then Aborted
    else
      var items := content.value.value.items;
      match ScanAll(items, VisitAt(now), LabelOf)
      case None => Aborted
      case Some(s) =>
        var summary := Summary(|items|, s.restaurants, s.changed, s.actions);
        if s.changed == 0 then NothingToWrite(summary) else ToWrite(summary, s.entries)
  }

  /** `f"{path}.bak.{ts}"`, with the time stamp as a parameter. */
  function BackupPath(path: string, stamp: string): (b: string)
    ensures b != path
  {
    var b := path + ".bak." + stamp;
    assert |b| > |path|;
    b
  }

  /** The files once `main` is done: only a write of a scan with changes touches them. */
  function FilesAfter(files: map<string, Content>, path: string, write: bool, now: string, stamp: string): map<string, Content> {
    var plan := Plan(FileAt(files, path), now);
    if write && plan.ToWrite? then
      files[BackupPath(path, stamp) := files[path]][path := Parsed(JArr(plan.updated))]
    else files
  }

  /** The file system the script reads and writes, as the JSON each path holds. */
  class Disk {
    var files: map<string, Content>

    constructor (files: map<string, Content>)
      ensures this.files == files
    {
      this.files := files;
    }
  }

  /**
   * `main()` on the file `path`, with `--write` when `write` holds. Returns the
   * exit code and the summary it prints when it gets that far.
   */
  method Run(disk: Disk, path: string, write: bool, now: string, stamp: string) returns (code: nat, summary: Option<Summary>)
    modifies disk
    ensures var plan := Plan(FileAt(old(disk.files), path), now);
            && code == (if plan.Aborted? then 1 else 0)
            && (plan.Aborted? <==> summary.None?)
            && (summary.Some? ==> summary.value == plan.summary)
    ensures disk.files == FilesAfter(old(disk.files), path, write, now, stamp)
  {
    if path !in disk.files {
      return 1, None;
    }
    var content := disk.files[path];
    if content.Unparsable? {
      return 1, None;
    }
    if !content.value.JArr? {
      return 1, None;
    }
    var items := content.value.items;
    var data := new Json[|items|](i requires 0 <= i < |items| => items[i]);
    assert data[..] == items;
    var r := Scan(data, now);
    if r.None? {
      return 1, None;
    }
    var (restaurants, changed, actions) := r.value;
    code, summary := 0, Some(Summary(|items|, restaurants, changed, actions));
    if changed == 0 {
      return;
    }
    if write {
      var backup := BackupPath(path, stamp);
      // The backup is first written with the updated array, then overwritten
      // with the original file read again.
      disk.files := disk.files[backup := Parsed(JArr(data[..]))];
      var original := disk.files[path];
      disk.files := disk.files[backup := original];
      disk.files := disk.files[path := Parsed(JArr(data[..]))];
    }
  }

  // ---------------------------------------------------------------------
  // What main does

  /** `main` exits with 1 iff the file is missing, unparsable, not an array, or holds a non-dict entry. */
  lemma PlanAbortsIff(content: Option<Content>, now: string)
    ensures Plan(content, now).Aborted? <==>
              || content.None? || content.value.Unparsable? || !content.value.value.JArr?
              || exists i :: 0 <= i < |content.value.value.items| && !content.value.value.items[i].JObj?
  {
    if content.Some? && content.value.Parsed? && content.value.value.JArr? {
      var items := content.value.value.items;
      ScanCrashIff(items, VisitAt(now), LabelOf);
      assert forall i :: 0 <= i < |items| ==> (VisitAt(now)(items[i]).None? <==> !items[i].JObj?);
    }
  }

  /** Every entry of an array `main` gets through is a dict, and visiting it does what VisitEntryIs says. */
  lemma ScannedAllDicts(items: seq<Json>, now: string)
    requires ScanAll(items, VisitAt(now), LabelOf).Some?
    ensures forall i :: 0 <= i < |items| ==> items[i].JObj?
    ensures forall i :: 0 <= i < |items| ==>
              && (Counted(VisitAt(now), items[i]) <==> IsRestaurantEntry(items[i]))
              && (Changes(VisitAt(now), items[i]) <==> WillChange(items[i], now))
  {
    ScanCrashIff(items, VisitAt(now), LabelOf);
    forall i | 0 <= i < |items|
      ensures items[i].JObj?
      ensures Counted(VisitAt(now), items[i]) <==> IsRestaurantEntry(items[i])
      ensures Changes(VisitAt(now), items[i]) <==> WillChange(items[i], now)
    {
      assert VisitAt(now)(items[i]).Some?;
      VisitEntryIs(items[i], i, now);
    }
  }

  /**
   * The summary counts the entries: all of them, the restaurants, and those
   * `ensure_menu` changes, with one action per change.
   */
  lemma PlanCounts(items: seq<Json>, now: string)
    requires !Plan(Some(Parsed(JArr(items))), now).Aborted?
    ensures var sum := Plan(Some(Parsed(JArr(items))), now).summary;
            && sum.total == |items|
            && sum.restaurants == |Filter(items, IsRestaurantEntry)|
            && sum.changed == |Filter(items, e => WillChange(e, now))|
            && |sum.actions| == sum.changed
  {
    ScannedAllDicts(items, now);
    ScanCounts(items, VisitAt(now), LabelOf);
    FilterSame(items, e => Counted(VisitAt(now), e), IsRestaurantEntry);
    FilterSame(items, e => Changes(VisitAt(now), e), e => WillChange(e, now));
  }

  /**
   * The actions name the changed entries in index order: `idx` lists exactly
   * the positions `ensure_menu` changes, ascending, and action `k` is the
   * label (slug, else name, else `idx:i`) and the `how` of entry `idx[k]`.
   */
  lemma PlanActions(items: seq<Json>, now: string)
    requires !Plan(Some(Parsed(JArr(items))), now).Aborted?
    ensures var acts := Plan(Some(Parsed(JArr(items))), now).summary.actions;
            var idx := ChangedIndices(items, VisitAt(now));
            && (forall i :: i in idx <==> 0 <= i < |items| && WillChange(items[i], now))
            && (forall k, l :: 0 <= k < l < |idx| ==> idx[k] < idx[l])
            && |acts| == |idx|
            && forall k :: 0 <= k < |idx| ==>
                 && idx[k] < |items| && items[idx[k]].JObj?
                 && acts[k] == (Label(items[idx[k]].members, idx[k]), Ensure(items[idx[k]].members, now).how)
  {
    var idx := ChangedIndices(items, VisitAt(now));
    ScannedAllDicts(items, now);
    ChangedIndicesAre(items, VisitAt(now));
    ScanActions(items, VisitAt(now), LabelOf);
    forall k | 0 <= k < |idx| {
      VisitEntryIs(items[idx[k]], idx[k], now);
    }
  }

  /**
   * The array written back: each restaurant as `ensure_menu` leaves it, every
   * other entry untouched.
   */
  lemma PlanUpdated(items: seq<Json>, now: string)
    requires Plan(Some(Parsed(JArr(items))), now).ToWrite?
    ensures var updated := Plan(Some(Parsed(JArr(items))), now).updated;
            && |updated| == |items|
            && forall i :: 0 <= i < |items| ==>
                 && items[i].JObj?
                 && updated[i] == if IsRestaurantEntry(items[i]) then JObj(Ensure(items[i].members, now).entry) else items[i]
  {
    ScannedAllDicts(items, now);
    ScanEntriesResult(items, VisitAt(now), LabelOf);
    forall i | 0 <= i < |items| {
      VisitEntryIs(items[i], i, now);
    }
  }

  /** There is something to write iff the scan gets through and `ensure_menu` changes some entry. */
  lemma PlanWritesIff(items: seq<Json>, now: string)
    ensures Plan(Some(Parsed(JArr(items))), now).ToWrite? <==>
              && !Plan(Some(Parsed(JArr(items))), now).Aborted?
              && exists i :: 0 <= i < |items| && WillChange(items[i], now)
  {
    if !Plan(Some(Parsed(JArr(items))), now).Aborted? {
      PlanCounts(items, now);
      FilterEmpty(items, e => WillChange(e, now));
    }
  }

  /** Running the script again on the array it wrote, at any later time, finds nothing to change. */
  lemma RerunChangesNothing(items: seq<Json>, now: string, later: string)
    requires Plan(Some(Parsed(JArr(items))), now).ToWrite?
    ensures Plan(Some(Parsed(JArr(Plan(Some(Parsed(JArr(items))), now).updated))), later).NothingToWrite?
  {
    var updated := Plan(Some(Parsed(JArr(items))), now).updated;
    PlanUpdated(items, now);
    forall i | 0 <= i < |updated|
      ensures updated[i].JObj? && !WillChange(updated[i], later)
    {
      if IsRestaurantEntry(items[i]) {
        EnsureKeepsClass(items[i].members, now);
        EnsureIdempotent(items[i].members, now, later);
      }
    }
    PlanAbortsIff(Some(Parsed(JArr(updated))), later);
    PlanWritesIff(updated, later);
  }

  /** An array with something to write differs from the one read. */
  lemma ToWriteDiffers(items: seq<Json>, now: string)
    requires Plan(Some(Parsed(JArr(items))), now).ToWrite?
    ensures Plan(Some(Parsed(JArr(items))), now).updated != items
  {
    var updated := Plan(Some(Parsed(JArr(items))), now).updated;
    PlanUpdated(items, now);
    PlanWritesIff(items, now);
    var i :| 0 <= i < |items| && WillChange(items[i], now);
    EnsureChangedIff(items[i].members, now);
    assert updated[i] != items[i];
  }

  /**
   * Nothing is written unless `--write` is given and some entry changed. A
   * write leaves the original file's contents under the backup path (written
   * last) and the updated array under the data path; no other file changes.
   */
  lemma FilesAfterRun(files: map<string, Content>, path: string, write: bool, now: string, stamp: string)
    ensures var after := FilesAfter(files, path, write, now, stamp);
            var plan := Plan(FileAt(files, path), now);
            && (after == files <==> !(write && plan.ToWrite?))
            && (write && plan.ToWrite? ==>
                  && path in files && files[path].Parsed? && files[path].value.JArr?
                  && after.Keys == files.Keys + {BackupPath(path, stamp)}
                  && after[BackupPath(path, stamp)] == files[path]
                  && after[path] == Parsed(JArr(plan.updated))
                  && plan.updated != files[path].value.items
                  && forall p :: p in files && p != path && p != BackupPath(path, stamp) ==> after[p] == files[p])
  {
    var plan := Plan(FileAt(files, path), now);
    if write && plan.ToWrite? {
      var items := files[path].value.items;
      assert FileAt(files, path) == Some(Parsed(JArr(items)));
      ToWriteDiffers(items, now);
      var after := FilesAfter(files, path, write, now, stamp);
      assert after[path] != files[path];
    }
  }
}
