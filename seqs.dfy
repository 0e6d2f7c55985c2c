/** Sequence helpers: filtering, subsequences, counting and de-duplication. */
module Seqs {
  import opened Wrappers

  /** The elements of `s` satisfying `f`, in order: a list comprehension with a condition. */
  function Filter<T>(s: seq<T>, f: T -> bool): (r: seq<T>)
    ensures |r| <= |s|
  {
    if s == [] then [] else (if f(s[0]) then [s[0]] else []) + Filter(s[1..], f)
  }

  /** `x` is kept iff it is in `s` and satisfies `f`. */
  lemma {:induction false} FilterMembers<T>(s: seq<T>, f: T -> bool, x: T)
    ensures x in Filter(s, f) <==> x in s && f(x)
  {
    if s != [] {
      FilterMembers(s[1..], f, x);
      assert s == [s[0]] + s[1..];
    }
  }

  lemma {:induction false} FilterAppend<T>(s: seq<T>, x: T, f: T -> bool)
    ensures Filter(s + [x], f) == Filter(s, f) + (if f(x) then [x] else [])
  {
    if s == [] {
      assert s + [x] == [x];
      assert [x][1..] == [];
    } else {
      assert (s + [x])[0] == s[0];
      assert (s + [x])[1..] == s[1..] + [x];
      FilterAppend(s[1..], x, f);
      var h := if f(s[0]) then [s[0]] else [];
      var t := if f(x) then [x] else [];
      var r := Filter(s[1..], f);
      assert Filter(s + [x], f) == h + (r + t);
      assert h + (r + t) == (h + r) + t;
    }
  }

  /** Two conditions that agree on the elements of `s` keep the same elements. */
  lemma {:induction false} FilterSame<T>(s: seq<T>, f: T -> bool, g: T -> bool)
    requires forall i :: 0 <= i < |s| ==> f(s[i]) == g(s[i])
    ensures Filter(s, f) == Filter(s, g)
  {
    if s != [] {
      assert forall i :: 1 <= i < |s| ==> s[i] == s[1..][i - 1];
      FilterSame(s[1..], f, g);
    }
  }

  /** Nothing is kept iff no element satisfies `f`. */
  lemma FilterEmpty<T>(s: seq<T>, f: T -> bool)
    ensures |Filter(s, f)| == 0 <==> forall i :: 0 <= i < |s| ==> !f(s[i])
  {
    if |Filter(s, f)| > 0 {
      FilterMembers(s, f, Filter(s, f)[0]);
    }
    forall i | 0 <= i < |s| && f(s[i]) ensures |Filter(s, f)| > 0 {
      FilterMembers(s, f, s[i]);
    }
  }

  /** Filtering keeps everything iff every element satisfies `f`. */
  lemma {:induction false} FilterKeepsAll<T>(s: seq<T>, f: T -> bool)
    ensures Filter(s, f) == s <==> forall i :: 0 <= i < |s| ==> f(s[i])
  {
    if s != [] {
      FilterKeepsAll(s[1..], f);
      assert forall i :: 1 <= i < |s| ==> s[i] == s[1..][i - 1];
      if !f(s[0]) {
        assert |Filter(s, f)| < |s|;
      }
    }
  }

  /** `a` is `b` with some elements removed, the rest in the same order. */
  predicate IsSubseq<T(==)>(a: seq<T>, b: seq<T>) {
    a == [] || (b != [] && ((a[0] == b[0] && IsSubseq(a[1..], b[1..])) || IsSubseq(a, b[1..])))
  }

  lemma {:induction false} FilterIsSubseq<T>(s: seq<T>, f: T -> bool)
    ensures IsSubseq(Filter(s, f), s)
  {
    if s != [] {
      FilterIsSubseq(s[1..], f);
      var a := Filter(s, f);
      if f(s[0]) {
        assert a == [s[0]] + Filter(s[1..], f);
        assert a[0] == s[0] && a[1..] == Filter(s[1..], f);
      } else {
        assert a == Filter(s[1..], f);
      }
    }
  }

  /** Every element of `init + [x]` satisfies `f` iff every element of `init` and `x` do. */
  lemma AllSnoc<T>(init: seq<T>, x: T, f: T -> bool)
    ensures (forall i :: 0 <= i < |init + [x]| ==> f((init + [x])[i]))
            <==> (forall i :: 0 <= i < |init| ==> f(init[i])) && f(x)
  {
    var s := init + [x];
    assert forall i :: 0 <= i < |init| ==> s[i] == init[i];
    assert s[|init|] == x;
  }

  /** Filtering by `f` and then by `g` is filtering by any `h` that is their conjunction. */
  lemma {:induction false} FilterThen<T>(s: seq<T>, f: T -> bool, g: T -> bool, h: T -> bool)
    requires forall i :: 0 <= i < |s| ==> h(s[i]) == (f(s[i]) && g(s[i]))
    ensures Filter(Filter(s, f), g) == Filter(s, h)
  {
    if s != [] {
      FilterThen(s[1..], f, g, h);
      var t := Filter(s[1..], f);
      assert h(s[0]) == (f(s[0]) && g(s[0]));
      if f(s[0]) {
        assert Filter(s, f) == [s[0]] + t;
        assert ([s[0]] + t)[1..] == t;
        assert ([s[0]] + t)[0] == s[0];
      } else {
        assert Filter(s, f) == t;
      }
    }
  }

  /** How many times `x` occurs in `s`. */
  function Count<T(==)>(s: seq<T>, x: T): nat {
    if s == [] then 0 else (if s[0] == x then 1 else 0) + Count(s[1..], x)
  }

  lemma {:induction false} CountAppend<T>(a: seq<T>, b: seq<T>, x: T)
    ensures Count(a + b, x) == Count(a, x) + Count(b, x)
  {
    if a == [] {
      assert a + b == b;
    } else {
      assert (a + b)[0] == a[0];
      assert (a + b)[1..] == a[1..] + b;
      CountAppend(a[1..], b, x);
    }
  }

  lemma {:induction false} CountPositive<T>(s: seq<T>, x: T)
    ensures Count(s, x) > 0 <==> x in s
  {
    if s != [] {
      CountPositive(s[1..], x);
      assert s == [s[0]] + s[1..];
    }
  }

  /** The distinct elements of `s`, each where it first occurs. */
  function Dedup<T(==)>(s: seq<T>): seq<T> {
    if s == [] then []
    else
      var d := Dedup(s[..|s| - 1]);
      if s[|s| - 1] in d then d else d + [s[|s| - 1]]
  }

  /** Dedup keeps every element, and only those. */
  lemma {:induction false} DedupMembers<T>(s: seq<T>, x: T)
    ensures x in Dedup(s) <==> x in s
  {
    if s != [] {
      DedupMembers(s[..|s| - 1], x);
      assert s == s[..|s| - 1] + [s[|s| - 1]];
    }
  }

  /** Dedup leaves no element twice. */
  lemma {:induction false} DedupDistinct<T>(s: seq<T>)
    ensures forall i, j :: 0 <= i < j < |Dedup(s)| ==> Dedup(s)[i] != Dedup(s)[j]
  {
    if s != [] {
      DedupDistinct(s[..|s| - 1]);
    }
  }

  /** A non-empty sequence appended is its front appended, then its last element. */
  lemma AppendSplitLast<T>(a: seq<T>, b: seq<T>)
    requires b != []
    ensures a + b == (a + b[..|b| - 1]) + [b[|b| - 1]]
    ensures b == b[..|b| - 1] + [b[|b| - 1]]
  {
  }

  /** Dedup of a longer sequence: the new element is added unless already seen. */
  lemma DedupSnoc<T>(s: seq<T>, x: T)
    ensures Dedup(s + [x]) == if x in Dedup(s) then Dedup(s) else Dedup(s) + [x]
  {
    assert (s + [x])[..|s|] == s;
  }

  /** `x` repeated `n` times. */
  function Repeat<T>(x: T, n: nat): (r: seq<T>)
    ensures |r| == n && forall i :: 0 <= i < n ==> r[i] == x
  {
    if n == 0 then [] else Repeat(x, n - 1) + [x]
  }

  /** One more repetition goes at the end. */
  lemma RepeatSnoc<T>(b: seq<T>, x: T, n: nat)
    ensures (b + Repeat(x, n)) + [x] == b + Repeat(x, n + 1)
    ensures b + Repeat(x, 0) == b
  {
  }

  /** The last value `f` gives that is not None, scanning `s` from the end. */
  function LastSome<T, U>(s: seq<T>, f: T -> Option<U>): Option<U> {
    if s == [] then None
    else if f(s[|s| - 1]).Some? then f(s[|s| - 1])
    else LastSome(s[..|s| - 1], f)
  }

  /** LastSome finds something iff some element gives a value, and then it is the last such one's. */
  lemma {:induction false} LastSomeIsLast<T, U>(s: seq<T>, f: T -> Option<U>)
    ensures LastSome(s, f).Some? <==> exists i :: 0 <= i < |s| && f(s[i]).Some?
    ensures LastSome(s, f).Some? ==>
              exists i :: 0 <= i < |s| && f(s[i]) == LastSome(s, f) && forall j :: i < j < |s| ==> f(s[j]).None?
  {
    if s != [] {
      var init := s[..|s| - 1];
      LastSomeIsLast(init, f);
      assert forall i :: 0 <= i < |init| ==> init[i] == s[i];
      if f(s[|s| - 1]).None? && LastSome(init, f).Some? {
        var i :| 0 <= i < |init| && f(init[i]) == LastSome(init, f) && forall j :: i < j < |init| ==> f(init[j]).None?;
        assert forall j :: i < j < |s| ==> f(s[j]).None?;
      }
    }
  }
}
