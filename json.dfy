/**
 * JSON values as the scripts see them after `json.load` (Python) or `res.json()`
 * (the browser), with the two languages' notions of truthiness and iteration.
 *
 * An object is an association list in insertion order, because a Python dict
 * keeps that order and the scripts depend on it (`list(rec.keys())`, the order in
 * which a report or a feed dictionary is printed). A number is
 * `mantissa * 10^exponent`; the scripts only copy numbers around or test them
 * for zero.
 */
module JsonValue {
  import opened Wrappers

  datatype Json =
    | JNull
    | JBool(b: bool)
    | JNum(mantissa: int, exponent: int)
    | JStr(s: string)
    | JArr(items: seq<Json>)
    | JObj(members: seq<(string, Json)>)

  /** What a JSON file on disk holds once the parser has looked at it. */
  datatype Content = Parsed(value: Json) | Unparsable

  // ---------------------------------------------------------------------
  // Association lists: the model of a Python dict

  /** The keys in insertion order. */
  function Keys<K, V>(a: seq<(K, V)>): (ks: seq<K>)
    ensures |ks| == |a|
    ensures forall i :: 0 <= i < |a| ==> ks[i] == a[i].0
  {
    if a == [] then [] else [a[0].0] + Keys(a[1..])
  }

  /** `d.get(k)`: the value bound to `k`, or None when `k` is not a key. */
  function Lookup<K(==,!new), V>(a: seq<(K, V)>, k: K): (r: Option<V>)
    ensures r.Some? <==> k in Keys(a)
  {
    if a == [] then None
    else if a[0].0 == k then Some(a[0].1)
    else Lookup(a[1..], k)
  }

  /** The value found is the one at the first position holding the key. */
  lemma {:induction false} LookupAt<K(!new), V>(a: seq<(K, V)>, i: nat, k: K)
    requires i < |a| && a[i].0 == k
    requires forall j :: 0 <= j < i ==> a[j].0 != k
    ensures Lookup(a, k) == Some(a[i].1)
  {
    if i > 0 {
      LookupAt(a[1..], i - 1, k);
    }
  }

  /** With distinct keys, every member is what a lookup of its key finds. */
  lemma LookupDistinct<K(!new), V>(a: seq<(K, V)>)
    requires DistinctKeys(a)
    ensures forall i :: 0 <= i < |a| ==> Lookup(a, a[i].0) == Some(a[i].1)
  {
    var ks := Keys(a);
    forall i | 0 <= i < |a| ensures Lookup(a, a[i].0) == Some(a[i].1) {
      assert forall j :: 0 <= j < i ==> a[j].0 == ks[j] != ks[i] == a[i].0;
      LookupAt(a, i, a[i].0);
    }
  }

  /** `d.get(k, default)`. */
  function LookupOr<K(==,!new), V>(a: seq<(K, V)>, k: K, default: V): (r: V)
    ensures k !in Keys(a) ==> r == default
    ensures k in Keys(a) ==> Some(r) == Lookup(a, k)
  {
    match Lookup(a, k)
    case Some(v) => v
    case None => default
  }

  /** `d.get(k)` on a dict read from JSON: null when the key is absent. */
  function Get(m: seq<(string, Json)>, k: string): (v: Json)
    ensures k !in Keys(m) ==> v == JNull
    ensures k in Keys(m) ==> Lookup(m, k) == Some(v)
  {
    LookupOr(m, k, JNull)
  }

  /**
   * `d[k] = v`: an existing key keeps its position and gets the new value; a
   * new key goes to the end (see KeysPut).
   */
  function Put<K(==,!new), V>(a: seq<(K, V)>, k: K, v: V): (r: seq<(K, V)>)
    ensures Lookup(r, k) == Some(v)
    ensures forall k' :: k' != k ==> Lookup(r, k') == Lookup(a, k')
  {
    if a == [] then [(k, v)]
    else if a[0].0 == k then
      var r := [(k, v)] + a[1..];
      assert r[1..] == a[1..];
      r
    else
      var t := Put(a[1..], k, v);
      var r := [a[0]] + t;
      assert r[1..] == t;
      r
  }

  /** Assigning an existing key replaces the value at its first position. */
  lemma {:induction false} PutAt<K(!new), V>(a: seq<(K, V)>, i: nat, k: K, v: V)
    requires i < |a| && a[i].0 == k
    requires forall j :: 0 <= j < i ==> a[j].0 != k
    ensures Put(a, k, v) == a[i := (k, v)]
  {
    UpdateSplit(a, i, (k, v));
    if i > 0 {
      PutAt(a[1..], i - 1, k, v);
    }
  }

  lemma UpdateSplit<T>(a: seq<T>, i: nat, x: T)
    requires i < |a|
    ensures i == 0 ==> a[i := x] == [x] + a[1..]
    ensures i > 0 ==> a[i := x] == [a[0]] + a[1..][i - 1 := x]
  {
    var u := a[i := x];
    var r := if i == 0 then [x] + a[1..] else [a[0]] + a[1..][i - 1 := x];
    assert forall j :: 0 <= j < |a| ==> u[j] == r[j];
    assert u == r;
  }

  /** Assigning a key the value it already has changes nothing. */
  lemma {:induction false} PutSame<K(!new), V>(a: seq<(K, V)>, k: K, v: V)
    requires Lookup(a, k) == Some(v)
    ensures Put(a, k, v) == a
  {
    if a[0].0 != k {
      PutSame(a[1..], k, v);
    }
  }

  lemma KeysPut<K(!new), V>(a: seq<(K, V)>, k: K, v: V)
    ensures Keys(Put(a, k, v)) == if k in Keys(a) then Keys(a) else Keys(a) + [k]
  {
    if k in Keys(a) {
      var i := FirstKey(a, k);
      PutAt(a, i, k, v);
      KeysUpdate(a, i, (k, v));
    } else {
      PutNew(a, k, v);
      KeysAppend(a, (k, v));
    }
  }

  lemma KeysUpdate<K, V>(a: seq<(K, V)>, i: nat, kv: (K, V))
    requires i < |a| && a[i].0 == kv.0
    ensures Keys(a[i := kv]) == Keys(a)
  {
    var r := a[i := kv];
    assert forall j :: 0 <= j < |a| ==> Keys(r)[j] == Keys(a)[j];
  }

  lemma KeysAppend<K, V>(a: seq<(K, V)>, kv: (K, V))
    ensures Keys(a + [kv]) == Keys(a) + [kv.0]
  {
    var r := a + [kv];
    var ks := Keys(a) + [kv.0];
    assert forall j :: 0 <= j < |r| ==> Keys(r)[j] == ks[j];
  }

  /** The first position holding a key that occurs. */
  lemma {:induction false} FirstKey<K(!new), V>(a: seq<(K, V)>, k: K) returns (i: nat)
    requires k in Keys(a)
    ensures i < |a| && a[i].0 == k && forall j :: 0 <= j < i ==> a[j].0 != k
  {
    if a[0].0 == k {
      i := 0;
    } else {
      assert Keys(a)[1..] == Keys(a[1..]);
      var i' := FirstKey(a[1..], k);
      i := i' + 1;
    }
  }

  /** Assigning a new key appends it. */
  lemma {:induction false} PutNew<K(!new), V>(a: seq<(K, V)>, k: K, v: V)
    requires k !in Keys(a)
    ensures Put(a, k, v) == a + [(k, v)]
  {
    if a != [] {
      var t := a[1..];
      assert a[0].0 != k by { assert Keys(a)[0] == a[0].0; }
      assert k !in Keys(t) by { assert Keys(a)[1..] == Keys(t); }
      PutNew(t, k, v);
      assert Put(a, k, v) == [a[0]] + Put(t, k, v);
      assert [a[0]] + (t + [(k, v)]) == a + [(k, v)];
    }
  }

  /** No element occurs twice. */
  predicate Distinct<K(==)>(ks: seq<K>) {
    forall i, j :: 0 <= i < j < |ks| ==> ks[i] != ks[j]
  }

  /** No key occurs twice, as in every dict a JSON parser builds. */
  predicate DistinctKeys<K(==), V>(a: seq<(K, V)>) {
    Distinct(Keys(a))
  }

  lemma PutKeepsDistinct<K(!new), V>(a: seq<(K, V)>, k: K, v: V)
    requires DistinctKeys(a)
    ensures DistinctKeys(Put(a, k, v))
  {
    KeysPut(a, k, v);
    var ks := Keys(a);
    if k !in ks {
      var ks' := ks + [k];
      forall i, j | 0 <= i < j < |ks'| ensures ks'[i] != ks'[j] {
        if j == |ks| {
          assert ks'[i] == ks[i];
        } else {
          assert ks'[i] == ks[i] && ks'[j] == ks[j];
        }
      }
    }
  }

  /** A list of strings as a JSON array's items. */
  function StrList(xs: seq<string>): (r: seq<Json>)
    ensures |r| == |xs| && forall i :: 0 <= i < |xs| ==> r[i] == JStr(xs[i])
  {
    seq(|xs|, i requires 0 <= i < |xs| => JStr(xs[i]))
  }

  /** The strings of an array all of whose items are strings; None otherwise. */
  function StrsOf(items: seq<Json>): (r: Option<seq<string>>)
    ensures r.Some? ==> |r.value| == |items|
  {
    if items == [] then Some([])
    else match (items[0], StrsOf(items[1..]))
      case (JStr(s), Some(rest)) => Some([s] + rest)
      case _ => None
  }

  lemma {:induction false} StrsOfStrList(xs: seq<string>)
    ensures StrsOf(StrList(xs)) == Some(xs)
  {
    if xs != [] {
      StrsOfStrList(xs[1..]);
      assert StrList(xs)[0] == JStr(xs[0]);
      assert StrList(xs)[1..] == StrList(xs[1..]);
      assert [xs[0]] + xs[1..] == xs;
    }
  }

  // ---------------------------------------------------------------------
  // Python semantics of a value

  /** `bool(j)` in Python: None, False, 0, "", [] and {} are falsy. */
  predicate PyTruthy(j: Json) {
    match j
    case JNull => false
    case JBool(b) => b
    case JNum(m, _) => m != 0
    case JStr(s) => s != []
    case JArr(xs) => xs != []
    case JObj(ms) => ms != []
  }

  /**
   * The elements `for x in j` visits: a list's items, a string's characters,
   * a dict's keys. None when the value is not iterable (a TypeError).
   */
  function PyIter(j: Json): (r: Option<seq<Json>>)
    ensures r.None? <==> j.JNull? || j.JBool? || j.JNum?
    ensures j.JArr? ==> r == Some(j.items)
    ensures j.JStr? ==> r.Some? && |r.value| == |j.s|
                        && forall i :: 0 <= i < |j.s| ==> r.value[i] == JStr([j.s[i]])
    ensures j.JObj? ==> r.Some? && |r.value| == |j.members|
                        && forall i :: 0 <= i < |j.members| ==> r.value[i] == JStr(j.members[i].0)
  {
    match j
    case JArr(xs) => Some(xs)
    case JStr(s) => Some(seq(|s|, i requires 0 <= i < |s| => JStr([s[i]])))
    case JObj(ms) => Some(seq(|ms|, i requires 0 <= i < |ms| => JStr(ms[i].0)))
    case _ => None
  }

  /** A value that may be a dict key: lists and dicts are unhashable. */
  predicate PyHashable(j: Json) {
    !j.JArr? && !j.JObj?
  }

  // ---------------------------------------------------------------------
  // JavaScript semantics of a property read

  /**
   * Truthiness of an optional property in JavaScript; None stands for
   * `undefined`. Unlike Python, an empty array or object is truthy.
   */
  predicate JsTruthy(v: Option<Json>) {
    match v
    case None => false
    case Some(JNull) => false
    case Some(JBool(b)) => b
    case Some(JNum(m, _)) => m != 0
    case Some(JStr(s)) => s != []
    case Some(_) => true
  }

  /** `x[key]` in JavaScript for a JSON value: only objects have such properties. */
  function JsProp(x: Option<Json>, key: string): (r: Option<Json>)
    ensures r.Some? ==> x.Some? && x.value.JObj?
  {
    if x.Some? && x.value.JObj? then Lookup(x.value.members, key) else None
  }
}
