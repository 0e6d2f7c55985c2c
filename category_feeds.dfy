/**
 * scripts/build/emit_category_feeds.py: the places grouped by each category they
 * list, one feed per category.
 *
 * The dataset is the value `json.load` returned; the feed files are the groups
 * themselves (`json.dump` and the file names are left out).
 */
module CategoryFeeds {
  import opened Wrappers
  import opened JsonValue
  import opened Seqs

  /** The exception that stops the script. */
  datatype FeedError =
    | NotIterable            // `for p in places` over a number, bool or null
    | PlaceNotObject         // `p.get` on something other than a dict
    | CategoriesNotIterable  // `for cat in` a number, bool or null
    | UnhashableCategory     // `setdefault` with a list or dict

  /** Category -> the places listing it, in the order the keys were first seen. */
  type Groups = seq<(Json, seq<Json>)>

  /** What `for cat in p.get("categories", [])` visits. */
  function CategoriesOf(place: Json): (r: Result<seq<Json>, FeedError>)
    ensures place.JObj? && "categories" !in Keys(place.members) ==> r == Ok([])
  {
    if !place.JObj? then Err(PlaceNotObject)
    else match PyIter(LookupOr(place.members, "categories", JArr([])))
      case None => Err(CategoriesNotIterable)
      case Some(cats) => Ok(cats)
  }

  /** `by_category.setdefault(cat, []).append(p)`. */
  function AddTo<K(==,!new), V>(groups: seq<(K, seq<V>)>, cat: K, p: V): seq<(K, seq<V>)> {
    Put(groups, cat, LookupOr(groups, cat, []) + [p])
  }

  /**
   * The inner loop: `p` appended to the group of each of `cats`, in turn; None
   * at the first category that is not `hashable`.
   */
  function AddAll<K(==,!new), V>(groups: seq<(K, seq<V>)>, p: V, cats: seq<K>, hashable: K -> bool): Option<seq<(K, seq<V>)>> {
    if cats == [] then Some(groups)
    else match AddAll(groups, p, cats[..|cats| - 1], hashable)
      case None => None
      case Some(g) =>
        var cat := cats[|cats| - 1];
        if hashable(cat) then Some(AddTo(g, cat, p)) else None
  }

  /** `by_category` after the places, one after the other. */
  function Grouped(places: seq<Json>): Result<Groups, FeedError> {
    if places == [] then Ok([])
    else match Grouped(places[..|places| - 1])
      case Err(e) => Err(e)
      case Ok(g) => GroupPlace(g, places[|places| - 1])
  }

  /** The groups after one more place, or the exception it raises. */
  function GroupPlace(g: Groups, p: Json): Result<Groups, FeedError> {
    match CategoriesOf(p)
    case Err(e) => Err(e)
    case Ok(cats) =>
      match AddAll(g, p, cats, PyHashable)
      case None => Err(UnhashableCategory)
      case Some(g') => Ok(g')
  }

  /** The nested loops of `main`. */
  method GroupByCategory(places: seq<Json>) returns (r: Result<Groups, FeedError>)
    ensures r == Grouped(places)
  {
    var groups: Groups := [];
    var i := 0;
    while i < |places|
      invariant 0 <= i <= |places|
      invariant Grouped(places[..i]) == Ok(groups)
    {
      var p := places[i];
      assert places[..i + 1][..i] == places[..i];
      assert Grouped(places[..i + 1]) == GroupPlace(groups, p);
      var cats := CategoriesOf(p);
      if cats.Err? {
        FailureSticks(places, i + 1);
        return Err(cats.error);
      }
      ghost var before := groups;
      var j := 0;
      while j < |cats.value|
        invariant 0 <= j <= |cats.value|
        invariant AddAll(before, p, cats.value[..j], PyHashable) == Some(groups)
      {
        var cat := cats.value[j];
        AddAllSnoc(before, p, cats.value, PyHashable, j);
        if !PyHashable(cat) {
          AddAllFailureSticks(before, p, cats.value, PyHashable, j + 1);
          FailureSticks(places, i + 1);
          return Err(UnhashableCategory);
        }
        groups := AddTo(groups, cat, p);
        j := j + 1;
      }
      assert cats.value[..j] == cats.value;
      i := i + 1;
    }
    assert places[..i] == places;
    r := Ok(groups);
  }

  /** One more category: `p` joins its group, or the loop raises. */
  lemma AddAllSnoc<K(!new), V>(groups: seq<(K, seq<V>)>, p: V, cats: seq<K>, hashable: K -> bool, j: nat)
    requires j < |cats|
    ensures AddAll(groups, p, cats[..j + 1], hashable)
            == match AddAll(groups, p, cats[..j], hashable)
               case None => None
               case Some(g) => if hashable(cats[j]) then Some(AddTo(g, cats[j], p)) else None
  {
    assert cats[..j + 1][..j] == cats[..j];
  }

  lemma {:induction false} AddAllFailureSticks<K(!new), V>(groups: seq<(K, seq<V>)>, p: V, cats: seq<K>, hashable: K -> bool, k: nat)
    requires k <= |cats| && AddAll(groups, p, cats[..k], hashable).None?
    ensures AddAll(groups, p, cats, hashable).None?
    decreases |cats| - k
  {
    if k < |cats| {
      assert cats[..k + 1][..k] == cats[..k];
      AddAllFailureSticks(groups, p, cats, hashable, k + 1);
    } else {
      assert cats[..k] == cats;
    }
  }

  lemma {:induction false} FailureSticks(places: seq<Json>, k: nat)
    requires k <= |places| && Grouped(places[..k]).Err?
    ensures Grouped(places) == Grouped(places[..k])
    decreases |places| - k
  {
    if k < |places| {
      assert places[..k + 1][..k] == places[..k];
      FailureSticks(places, k + 1);
    } else {
      assert places[..k] == places;
    }
  }

  /** What `main` leaves behind. */
  datatype FeedOutcome =
    | NoDataFile
    | Crashed(error: FeedError)
    | Emitted(feeds: Groups, count: nat)   // one feed per group; `count` is the number printed

  /** `main`, with `data` the parsed dataset, or None when the file does not exist. */
  method FeedsMain(data: Option<Json>) returns (out: FeedOutcome)
    ensures data.None? ==> out == NoDataFile
    ensures data.Some? && PyIter(data.value).None? ==> out == Crashed(NotIterable)
    ensures data.Some? && PyIter(data.value).Some? ==>
              var r := Grouped(PyIter(data.value).value);
              && (r.Err? ==> out == Crashed(r.error))
              && (r.Ok? ==> out == Emitted(r.value, |r.value|))
  {
    if data.None? {
      return NoDataFile;
    }
    var places := PyIter(data.value);
    if places.None? {
      return Crashed(NotIterable);
    }
    var r := GroupByCategory(places.value);
    if r.Err? {
      return Crashed(r.error);
    }
    out := Emitted(r.value, |r.value|);
  }

  // ---------------------------------------------------------------------
  // What the groups hold

  /** The categories a place lists (none when listing them raises). */
  function CatsOf(place: Json): seq<Json> {
    var r := CategoriesOf(place);
    if r.Ok? then r.value else []
  }

  /** Every category listed, place after place, repeats included. */
  function AllCats(places: seq<Json>): seq<Json> {
    if places == [] then [] else AllCats(places[..|places| - 1]) + CatsOf(places[|places| - 1])
  }

  /** Each place once for every time it lists `cat`, in dataset order. */
  function MembersOf(places: seq<Json>, cat: Json): seq<Json> {
    if places == [] then []
    else MembersOf(places[..|places| - 1], cat) + Repeat(places[|places| - 1], Count(CatsOf(places[|places| - 1]), cat))
  }

  /** One step of the inner loop. */
  lemma AddAllLast<K(!new), V>(groups: seq<(K, seq<V>)>, p: V, cats: seq<K>, hashable: K -> bool)
    requires cats != [] && AddAll(groups, p, cats, hashable).Some?
    ensures AddAll(groups, p, cats[..|cats| - 1], hashable).Some?
    ensures AddAll(groups, p, cats, hashable).value
            == AddTo(AddAll(groups, p, cats[..|cats| - 1], hashable).value, cats[|cats| - 1], p)
  {
  }

  /** `setdefault` adds the category as a new key when it is not one yet. */
  lemma KeysAddTo<K(!new), V>(groups: seq<(K, seq<V>)>, cat: K, p: V)
    ensures Keys(AddTo(groups, cat, p)) == if cat in Keys(groups) then Keys(groups) else Keys(groups) + [cat]
  {
    KeysPut(groups, cat, LookupOr(groups, cat, []) + [p]);
  }

  lemma KeysAddToDedup<K(!new), V>(g: seq<(K, seq<V>)>, r: seq<(K, seq<V>)>, cat: K, p: V, seen: seq<K>, seen': seq<K>)
    requires Keys(g) == Dedup(seen) && r == AddTo(g, cat, p) && seen' == seen + [cat]
    ensures Keys(r) == Dedup(seen')
  {
    KeysAddTo(g, cat, p);
    DedupSnoc(seen, cat);
  }

  lemma {:induction false} AddAllKeys<K(!new), V>(groups: seq<(K, seq<V>)>, p: V, cats: seq<K>, hashable: K -> bool, seen: seq<K>)
    requires Keys(groups) == Dedup(seen) && AddAll(groups, p, cats, hashable).Some?
    ensures Keys(AddAll(groups, p, cats, hashable).value) == Dedup(seen + cats)
    decreases |cats|
  {
    if cats == [] {
      assert seen + cats == seen;
    } else {
      var init := cats[..|cats| - 1];
      var cat := cats[|cats| - 1];
      AddAllLast(groups, p, cats, hashable);
      AddAllKeys(groups, p, init, hashable, seen);
      AppendSplitLast(seen, cats);
      KeysAddToDedup(AddAll(groups, p, init, hashable).value, AddAll(groups, p, cats, hashable).value, cat, p, seen + init, seen + cats);
    }
  }

  /** The feed keys are exactly the distinct categories, in the order they first occur. */
  lemma {:induction false} GroupKeysAreDistinctCategories(places: seq<Json>)
    requires Grouped(places).Ok?
    ensures Keys(Grouped(places).value) == Dedup(AllCats(places))
  {
    if places != [] {
      var init := places[..|places| - 1];
      GroupKeysAreDistinctCategories(init);
      AddAllKeys(Grouped(init).value, places[|places| - 1], CatsOf(places[|places| - 1]), PyHashable, AllCats(init));
    }
  }

  /** `setdefault(...).append(p)` extends the one group it names. */
  lemma LookupAddTo<K(!new), V>(groups: seq<(K, seq<V>)>, cat: K, p: V, c: K)
    ensures Lookup(AddTo(groups, cat, p), c) == if c == cat then Some(LookupOr(groups, c, []) + [p]) else Lookup(groups, c)
  {
  }

  /** Counting one more category. */
  lemma CountSnoc<T>(s: seq<T>, c: T)
    requires s != []
    ensures Count(s, c) == Count(s[..|s| - 1], c) + if s[|s| - 1] == c then 1 else 0
  {
    AppendSplitLast([], s);
    CountAppend(s[..|s| - 1], [s[|s| - 1]], c);
    assert Count([s[|s| - 1]], c) == if s[|s| - 1] == c then 1 else 0;
  }

  lemma AddAllLookupStep<K(!new), V>(g: seq<(K, seq<V>)>, r: seq<(K, seq<V>)>, p: V, last: K, cat: K,
                                     groups: seq<(K, seq<V>)>, init: seq<K>, cats: seq<K>)
    requires r == AddTo(g, last, p) && cats == init + [last]
    requires Lookup(g, cat) == if cat !in Keys(groups) && cat !in init then None
                               else Some(LookupOr(groups, cat, []) + Repeat(p, Count(init, cat)))
    ensures Lookup(r, cat) == if cat !in Keys(groups) && cat !in cats then None
                              else Some(LookupOr(groups, cat, []) + Repeat(p, Count(cats, cat)))
  {
    LookupAddTo(g, last, p, cat);
    CountSnoc(cats, cat);
    assert cats[..|cats| - 1] == init;
    CountPositive(init, cat);
    CountPositive(cats, cat);
    RepeatSnoc(LookupOr(groups, cat, []), p, Count(init, cat));
  }

  lemma {:induction false} AddAllLookup<K(!new), V>(groups: seq<(K, seq<V>)>, p: V, cats: seq<K>, hashable: K -> bool, cat: K)
    requires AddAll(groups, p, cats, hashable).Some?
    ensures Lookup(AddAll(groups, p, cats, hashable).value, cat)
            == if cat !in Keys(groups) && cat !in cats then None
               else Some(LookupOr(groups, cat, []) + Repeat(p, Count(cats, cat)))
    decreases |cats|
  {
    if cats == [] {
      CountPositive(cats, cat);
      assert LookupOr(groups, cat, []) + [] == LookupOr(groups, cat, []);
    } else {
      var init := cats[..|cats| - 1];
      AddAllLast(groups, p, cats, hashable);
      AddAllLookup(groups, p, init, hashable, cat);
      AppendSplitLast([], cats);
      AddAllLookupStep(AddAll(groups, p, init, hashable).value, AddAll(groups, p, cats, hashable).value,
                       p, cats[|cats| - 1], cat, groups, init, cats);
    }
  }

  /** One step of the outer loop. */
  lemma GroupedLast(places: seq<Json>)
    requires places != [] && Grouped(places).Ok?
    ensures Grouped(places[..|places| - 1]).Ok?
    ensures AddAll(Grouped(places[..|places| - 1]).value, places[|places| - 1], CatsOf(places[|places| - 1]), PyHashable)
            == Some(Grouped(places).value)
  {
  }

  /** A category nobody lists has no members. */
  lemma {:induction false} MembersOfAbsent(places: seq<Json>, cat: Json)
    requires cat !in AllCats(places)
    ensures MembersOf(places, cat) == []
  {
    if places != [] {
      var p := places[|places| - 1];
      MembersOfAbsent(places[..|places| - 1], cat);
      CountPositive(CatsOf(p), cat);
    }
  }

  lemma MembersStep<K(!new), V>(g: seq<(K, seq<V>)>, r: seq<(K, seq<V>)>, p: V, cats: seq<K>, cat: K, all: seq<K>, members: seq<V>)
    requires Lookup(g, cat) == if cat in all then Some(members) else None
    requires Lookup(r, cat) == if cat !in Keys(g) && cat !in cats then None
                               else Some(LookupOr(g, cat, []) + Repeat(p, Count(cats, cat)))
    requires cat !in all ==> members == []
    ensures Lookup(r, cat) == if cat in all + cats then Some(members + Repeat(p, Count(cats, cat))) else None
  {
    CountPositive(cats, cat);
    RepeatSnoc(members, p, 0);
  }

  /**
   * Each feed is the places listing that category, in dataset order, a place
   * once for every time it lists the category; a category nobody lists has no feed.
   */
  lemma {:induction false} GroupsAreMembers(places: seq<Json>, cat: Json)
    requires Grouped(places).Ok?
    ensures Lookup(Grouped(places).value, cat) == if cat in AllCats(places) then Some(MembersOf(places, cat)) else None
  {
    if places != [] {
      var init := places[..|places| - 1];
      var p := places[|places| - 1];
      GroupedLast(places);
      GroupsAreMembers(init, cat);
      var g := Grouped(init).value;
      AddAllLookup(g, p, CatsOf(p), PyHashable, cat);
      if cat !in AllCats(init) {
        MembersOfAbsent(init, cat);
      }
      MembersStep(g, Grouped(places).value, p, CatsOf(p), cat, AllCats(init), MembersOf(init, cat));
    }
  }

  /** A place that lists no category changes nothing. */
  lemma NoCategoriesNoGroup(places: seq<Json>, p: Json)
    requires CategoriesOf(p) == Ok([])
    ensures Grouped(places + [p]) == Grouped(places)
  {
    assert (places + [p])[..|places|] == places;
  }

  /** The sizes of the groups of an association list, added up. */
  function TotalSize<K, V>(groups: seq<(K, seq<V>)>): nat {
    if groups == [] then 0 else |groups[0].1| + TotalSize(groups[1..])
  }

  lemma {:induction false} TotalSizePut<K(!new), V>(groups: seq<(K, seq<V>)>, cat: K, v: seq<V>)
    ensures TotalSize(Put(groups, cat, v)) + |LookupOr(groups, cat, [])| == TotalSize(groups) + |v|
    decreases |groups|
  {
    if groups != [] {
      if groups[0].0 == cat {
        assert Put(groups, cat, v)[1..] == groups[1..];
      } else {
        TotalSizePut(groups[1..], cat, v);
        assert Put(groups, cat, v)[1..] == Put(groups[1..], cat, v);
      }
    }
  }

  lemma {:induction false} AddAllSize<K(!new), V>(groups: seq<(K, seq<V>)>, p: V, cats: seq<K>, hashable: K -> bool)
    requires AddAll(groups, p, cats, hashable).Some?
    ensures TotalSize(AddAll(groups, p, cats, hashable).value) == TotalSize(groups) + |cats|
    decreases |cats|
  {
    if cats != [] {
      var init := cats[..|cats| - 1];
      var cat := cats[|cats| - 1];
      AddAllSize(groups, p, init, hashable);
      var g := AddAll(groups, p, init, hashable).value;
      TotalSizePut(g, cat, LookupOr(g, cat, []) + [p]);
    }
  }

  /** The feeds hold as many entries as there are categories listed, repeats included. */
  lemma {:induction false} TotalSizeIsCategoryCount(places: seq<Json>)
    requires Grouped(places).Ok?
    ensures TotalSize(Grouped(places).value) == |AllCats(places)|
  {
    if places != [] {
      var init := places[..|places| - 1];
      TotalSizeIsCategoryCount(init);
      AddAllSize(Grouped(init).value, places[|places| - 1], CatsOf(places[|places| - 1]), PyHashable);
    }
  }

  /** The count printed is the number of distinct categories. */
  lemma FeedCountIsDistinctCategories(places: seq<Json>)
    requires Grouped(places).Ok?
    ensures |Grouped(places).value| == |Dedup(AllCats(places))|
  {
    GroupKeysAreDistinctCategories(places);
  }
}
