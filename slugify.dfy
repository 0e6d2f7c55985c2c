/**
 * The slug generator of scripts/utils/slugify.py: a place name and an optional
 * neighbourhood become a URL-safe slug.
 *
 *   slugify(name, neighborhood) =
 *     CollapseHyphens(StripHyphens(Hyphenate(AsciiFold(Lower(PyStrip(name + " " + (neighborhood or "")))))))
 *
 * The shape of every slug (IsSlug), its description as the alphanumeric words of
 * the folded text joined by single hyphens (SlugIsJoinedWords) and idempotence
 * (SlugifyIdempotent) are proved below.
 */
module Slug {
  import opened Wrappers
  import opened Text

  /** `[a-z0-9]`, the characters the substitution keeps. */
  predicate IsAlnum(c: char) {
    'a' <= c <= 'z' || '0' <= c <= '9'
  }

  predicate IsHyphen(c: char) {
    c == '-'
  }

  predicate AllAlnum(s: string) {
    forall i :: 0 <= i < |s| ==> IsAlnum(s[i])
  }

  predicate NoDoubleHyphen(s: string) {
    forall i :: 0 <= i < |s| - 1 ==> !(s[i] == '-' && s[i + 1] == '-')
  }

  predicate SlugChars(s: string) {
    forall i :: 0 <= i < |s| ==> IsAlnum(s[i]) || s[i] == '-'
  }

  /** What every slug looks like: `[a-z0-9-]*`, no hyphen at either end, no `--`. */
  predicate IsSlug(s: string) {
    && SlugChars(s)
    && (s != [] ==> s[0] != '-' && s[|s| - 1] != '-')
    && NoDoubleHyphen(s)
  }

  predicate IsAscii(s: string) {
    forall i :: 0 <= i < |s| ==> s[i] as int < 0x80
  }

  // ---------------------------------------------------------------------
  // The pipeline, step by step

  /**
   * `unicodedata.normalize("NFKD", c).encode("ascii", "ignore")` for one
   * character of the Basic Latin and Latin-1 Supplement blocks: accented letters
   * lose their marks, compatibility characters (superscript digits, ordinal
   * indicators, vulgar fractions, the no-break space and the spacing accents)
   * become their ASCII parts, and everything without an ASCII decomposition is
   * dropped. Characters above U+00FF are dropped as well.
   */
  function AsciiFoldChar(c: char): (r: string)
    ensures IsAscii(r)
    ensures c as int < 0x80 ==> r == [c]
  {
    var n := c as int;
    if n < 0x80 then [c]
    else if n == 0xA0 || n == 0xA8 || n == 0xAF || n == 0xB4 || n == 0xB8 then " "
    else if n == 0xAA then "a"
    else if n == 0xB2 then "2"
    else if n == 0xB3 then "3"
    else if n == 0xB9 then "1"
    else if n == 0xBA then "o"
    else if n == 0xBC then "14"
    else if n == 0xBD then "12"
    else if n == 0xBE then "34"
    else if 0xC0 <= n <= 0xC5 then "A"
    else if n == 0xC7 then "C"
    else if 0xC8 <= n <= 0xCB then "E"
    else if 0xCC <= n <= 0xCF then "I"
    else if n == 0xD1 then "N"
    else if 0xD2 <= n <= 0xD6 then "O"
    else if 0xD9 <= n <= 0xDC then "U"
    else if n == 0xDD then "Y"
    else if 0xE0 <= n <= 0xE5 then "a"
    else if n == 0xE7 then "c"
    else if 0xE8 <= n <= 0xEB then "e"
    else if 0xEC <= n <= 0xEF then "i"
    else if n == 0xF1 then "n"
    else if 0xF2 <= n <= 0xF6 then "o"
    else if 0xF9 <= n <= 0xFC then "u"
    else if n == 0xFD || n == 0xFF then "y"
    else ""
  }

  function AsciiFold(s: string): (r: string)
    ensures IsAscii(r)
    ensures IsAscii(s) ==> r == s
  {
    if s == [] then [] else AsciiFoldChar(s[0]) + AsciiFold(s[1..])
  }

  /**
   * `re.sub(r"[^a-z0-9]+", "-", s)`: every maximal run of other characters
   * becomes one hyphen (written where the run ends).
   */
  function Hyphenate(s: string): string {
    if s == [] then []
    else if IsAlnum(s[0]) then [s[0]] + Hyphenate(s[1..])
    else if |s| > 1 && !IsAlnum(s[1]) then Hyphenate(s[1..])
    else "-" + Hyphenate(s[1..])
  }

  /** The substitution leaves only `[a-z0-9-]` and never two hyphens in a row. */
  lemma {:induction false} HyphenateShape(s: string)
    ensures SlugChars(Hyphenate(s)) && NoDoubleHyphen(Hyphenate(s))
    ensures Hyphenate(s) != [] && Hyphenate(s)[0] == '-' ==> s != [] && !IsAlnum(s[0])
  {
    if s != [] {
      var t := Hyphenate(s[1..]);
      HyphenateShape(s[1..]);
      var r := Hyphenate(s);
      if IsAlnum(s[0]) {
        assert r == [s[0]] + t;
        assert forall i :: 1 <= i < |r| ==> r[i] == t[i - 1];
      } else if |s| > 1 && !IsAlnum(s[1]) {
      } else {
        assert r == "-" + t;
        assert forall i :: 1 <= i < |r| ==> r[i] == t[i - 1];
        assert |s| > 1 ==> s[1..][0] == s[1];
        assert t != [] ==> t[0] != '-';
      }
    }
  }

  /** `s.strip("-")`. */
  function StripHyphens(s: string): string {
    Trim(s, IsHyphen)
  }

  /** `re.sub(r"-{2,}", "-", s)`. */
  function CollapseHyphens(s: string): (r: string)
    ensures NoDoubleHyphen(s) ==> r == s
  {
    if |s| >= 2 && s[0] == '-' && s[1] == '-' then CollapseHyphens(s[1..])
    else if s == [] then []
    else
      var t := CollapseHyphens(s[1..]);
      assert NoDoubleHyphen(s) ==> NoDoubleHyphen(s[1..]) by {
        if NoDoubleHyphen(s) {
          forall i | 0 <= i < |s[1..]| - 1 ensures !(s[1..][i] == '-' && s[1..][i + 1] == '-') {
            assert s[1..][i] == s[i + 1] && s[1..][i + 1] == s[i + 2];
          }
        }
      }
      [s[0]] + t
  }

  /** `neighborhood or ''`. */
  function NeighborhoodText(neighborhood: Option<string>): string {
    if neighborhood.Some? then neighborhood.value else ""
  }

  /** The text after `.strip().lower()` and ASCII folding. */
  function Folded(text: string): string {
    AsciiFold(Lower(PyStrip(text)))
  }

  /** The three substitutions applied to the folded text. */
  function SlugOfFolded(f: string): (r: string)
    ensures IsSlug(r)
  {
    var h := Hyphenate(f);
    var t := StripHyphens(h);
    HyphenateShape(f);
    SliceKeepsShape(h, t);
    CollapseHyphens(t)
  }

  /** Everything slugify does after building `f"{name} {neighborhood or ''}"`. */
  function SlugOfText(text: string): string {
    SlugOfFolded(Folded(text))
  }

  /** `slugify(name, neighborhood)`. */
  function Slugify(name: string, neighborhood: Option<string>): (r: string)
    ensures IsSlug(r)
  {
    SlugOfText(name + " " + NeighborhoodText(neighborhood))
  }

  lemma SliceKeepsShape(h: string, t: string)
    requires SlugChars(h) && NoDoubleHyphen(h)
    requires t == StripHyphens(h)
    ensures IsSlug(t)
  {
    var i, j := TrimSlice(h, IsHyphen);
    assert forall k :: 0 <= k < |t| ==> t[k] == h[i + k];
  }

  // ---------------------------------------------------------------------
  // The slug as hyphen-joined words

  /** The maximal runs of `[a-z0-9]` in `s`, left to right. */
  function Words(s: string): (ws: seq<string>)
    ensures forall i :: 0 <= i < |ws| ==> ws[i] != [] && AllAlnum(ws[i])
    ensures s != [] && IsAlnum(s[0]) ==> ws != []
  {
    if s == [] then []
    else if !IsAlnum(s[0]) then Words(s[1..])
    else
      var ws := Words(s[1..]);
      if |s| > 1 && IsAlnum(s[1]) then [[s[0]] + ws[0]] + ws[1..] else [[s[0]]] + ws
  }

  lemma {:induction false} WordsEmpty(s: string)
    ensures Words(s) == [] <==> forall i :: 0 <= i < |s| ==> !IsAlnum(s[i])
  {
    if s != [] {
      WordsEmpty(s[1..]);
      assert forall i :: 1 <= i < |s| ==> s[i] == s[1..][i - 1];
    }
  }

  /** `"-".join(ws)`. */
  function JoinWords(ws: seq<string>): string {
    if ws == [] then [] else if |ws| == 1 then ws[0] else ws[0] + "-" + JoinWords(ws[1..])
  }

  lemma {:induction false} JoinWordsEnds(ws: seq<string>)
    requires ws != [] && forall i :: 0 <= i < |ws| ==> ws[i] != [] && AllAlnum(ws[i])
    ensures JoinWords(ws) != []
    ensures IsAlnum(JoinWords(ws)[0]) && IsAlnum(JoinWords(ws)[|JoinWords(ws)| - 1])
  {
    if |ws| > 1 {
      JoinWordsEnds(ws[1..]);
    }
  }

  function Lead(s: string): string {
    if s != [] && !IsAlnum(s[0]) then "-" else ""
  }

  function Trail(s: string): string {
    if s != [] && !IsAlnum(s[|s| - 1]) then "-" else ""
  }

  /**
   * Hyphenate writes the words of `s` joined by single hyphens, with one more
   * hyphen at each end where `s` begins or ends with other characters.
   */
  predicate HyphenateJoined(s: string) {
    && (Words(s) == [] ==> Hyphenate(s) == (if s == [] then "" else "-"))
    && (Words(s) != [] ==> Hyphenate(s) == Lead(s) + JoinWords(Words(s)) + Trail(s))
  }

  lemma {:induction false} HyphenateIsJoinedWords(s: string)
    ensures HyphenateJoined(s)
  {
    if s != [] {
      HyphenateIsJoinedWords(s[1..]);
      if !IsAlnum(s[0]) {
        JoinedAfterOther(s);
      } else if |s| == 1 {
        assert Words(s) == [[s[0]]];
      } else if IsAlnum(s[1]) {
        JoinedAlnumAlnum(s);
      } else {
        JoinedAlnumOther(s);
      }
    }
  }

  lemma JoinedAfterOther(s: string)
    requires s != [] && !IsAlnum(s[0]) && HyphenateJoined(s[1..])
    ensures HyphenateJoined(s)
  {
    var u := s[1..];
    assert Words(s) == Words(u);
    if u == [] {
      assert Hyphenate(s) == "-";
    } else {
      assert s[|s| - 1] == u[|u| - 1];
      assert Trail(s) == Trail(u);
      if IsAlnum(u[0]) {
        assert Hyphenate(s) == "-" + Hyphenate(u);
        assert Words(u) != [] && Lead(u) == "" && Lead(s) == "-";
        var j := JoinWords(Words(u));
        assert Hyphenate(u) == j + Trail(u);
        assert "-" + (j + Trail(u)) == ("-" + j) + Trail(u);
      } else {
        assert Hyphenate(s) == Hyphenate(u);
        assert Lead(s) == Lead(u);
      }
    }
  }

  lemma JoinedAlnumAlnum(s: string)
    requires |s| > 1 && IsAlnum(s[0]) && IsAlnum(s[1]) && HyphenateJoined(s[1..])
    ensures HyphenateJoined(s)
  {
    var u := s[1..];
    var wu := Words(u);
    assert s[|s| - 1] == u[|u| - 1];
    assert Trail(s) == Trail(u);
    assert Words(s) == [[s[0]] + wu[0]] + wu[1..];
    assert Hyphenate(s) == [s[0]] + Hyphenate(u);
    assert JoinWords([[s[0]] + wu[0]] + wu[1..]) == [s[0]] + JoinWords(wu) by {
      if |wu| > 1 {
        assert ([[s[0]] + wu[0]] + wu[1..])[1..] == wu[1..];
      }
    }
  }

  lemma JoinedAlnumOther(s: string)
    requires |s| > 1 && IsAlnum(s[0]) && !IsAlnum(s[1]) && HyphenateJoined(s[1..])
    ensures HyphenateJoined(s)
  {
    var u := s[1..];
    var wu := Words(u);
    assert s[|s| - 1] == u[|u| - 1];
    assert Trail(s) == Trail(u);
    assert Hyphenate(s) == [s[0]] + Hyphenate(u);
    assert Words(s) == [[s[0]]] + wu;
    if wu == [] {
      WordsEmpty(u);
      assert !IsAlnum(u[|u| - 1]);
    } else {
      assert ([[s[0]]] + wu)[1..] == wu;
    }
  }

  lemma StripAroundWord(lead: string, w: string, trail: string)
    requires lead == "" || lead == "-"
    requires trail == "" || trail == "-"
    requires w != [] && IsAlnum(w[0]) && IsAlnum(w[|w| - 1])
    ensures StripHyphens(lead + w + trail) == w
  {
    assert lead + w + trail == lead + (w + trail);
    assert (w + trail)[0] == w[0];
    StripLead(lead, w + trail);
    StripTrail(w, trail);
  }

  lemma StripLead(lead: string, s: string)
    requires lead == "" || lead == "-"
    requires s != [] && !IsHyphen(s[0])
    ensures TrimStart(lead + s, IsHyphen) == s
  {
    assert TrimStart(s, IsHyphen) == s;
    if lead == "-" {
      assert (lead + s)[0] == '-' && (lead + s)[1..] == s;
    } else {
      assert lead + s == s;
    }
  }

  lemma StripTrail(w: string, trail: string)
    requires trail == "" || trail == "-"
    requires w != [] && !IsHyphen(w[|w| - 1])
    ensures TrimEnd(w + trail, IsHyphen) == w
  {
    var t := w + trail;
    if trail == "-" {
      assert t[|t| - 1] == '-' && t[..|t| - 1] == w;
    } else {
      assert t == w;
    }
  }

  /**
   * The slug is the maximal `[a-z0-9]` runs of the folded text joined by single
   * hyphens: every alphanumeric survives in order, and each maximal run of other
   * characters between two words becomes exactly one hyphen.
   */
  lemma SlugIsJoinedWords(name: string, neighborhood: Option<string>)
    ensures Slugify(name, neighborhood)
            == JoinWords(Words(Folded(name + " " + NeighborhoodText(neighborhood))))
  {
    FoldedSlugIsJoinedWords(Folded(name + " " + NeighborhoodText(neighborhood)));
  }

  lemma FoldedSlugIsJoinedWords(f: string)
    ensures SlugOfFolded(f) == JoinWords(Words(f))
  {
    var h := Hyphenate(f);
    HyphenateIsJoinedWords(f);
    HyphenateShape(f);
    var ws := Words(f);
    SliceKeepsShape(h, StripHyphens(h));
    if ws == [] {
      if f != [] {
        assert StripHyphens("-") == "" by {
          assert TrimStart("-", IsHyphen) == "";
        }
      }
    } else {
      JoinWordsEnds(ws);
      StripAroundWord(Lead(f), JoinWords(ws), Trail(f));
    }
  }

  /** Text without any ASCII letter or digit after folding, such as "***", gives "". */
  lemma {:induction false} NoAlnumGivesEmpty(name: string, neighborhood: Option<string>)
    requires forall i :: 0 <= i < |Folded(name + " " + NeighborhoodText(neighborhood))|
               ==> !IsAlnum(Folded(name + " " + NeighborhoodText(neighborhood))[i])
    ensures Slugify(name, neighborhood) == ""
  {
    SlugIsJoinedWords(name, neighborhood);
    WordsEmpty(Folded(name + " " + NeighborhoodText(neighborhood)));
  }

  // ---------------------------------------------------------------------
  // The alphanumerics, in order

  /** The `[a-z0-9]` characters of `s`, in order. */
  function AlnumOnly(s: string): (r: string)
    ensures AllAlnum(r)
  {
    if s == [] then [] else (if IsAlnum(s[0]) then [s[0]] else []) + AlnumOnly(s[1..])
  }

  function Flatten(ws: seq<string>): string {
    if ws == [] then [] else ws[0] + Flatten(ws[1..])
  }

  lemma {:induction false} AlnumOnlyAppend(a: string, b: string)
    ensures AlnumOnly(a + b) == AlnumOnly(a) + AlnumOnly(b)
  {
    if a == [] {
      assert a + b == b;
    } else {
      assert (a + b)[0] == a[0];
      assert (a + b)[1..] == a[1..] + b;
      AlnumOnlyAppend(a[1..], b);
    }
  }

  lemma {:induction false} AlnumOnlyOfAlnum(w: string)
    requires AllAlnum(w)
    ensures AlnumOnly(w) == w
  {
    if w != [] {
      AlnumOnlyOfAlnum(w[1..]);
    }
  }

  lemma {:induction false} WordsFlatten(s: string)
    ensures Flatten(Words(s)) == AlnumOnly(s)
  {
    if s != [] {
      WordsFlatten(s[1..]);
      var wu := Words(s[1..]);
      if IsAlnum(s[0]) && |s| > 1 && IsAlnum(s[1]) {
        assert ([[s[0]] + wu[0]] + wu[1..])[1..] == wu[1..];
        assert Flatten(wu) == wu[0] + Flatten(wu[1..]);
      } else if IsAlnum(s[0]) {
        assert ([[s[0]]] + wu)[1..] == wu;
      }
    }
  }

  lemma {:induction false} JoinFlatten(ws: seq<string>)
    requires forall i :: 0 <= i < |ws| ==> AllAlnum(ws[i])
    ensures AlnumOnly(JoinWords(ws)) == Flatten(ws)
  {
    if ws != [] {
      AlnumOnlyOfAlnum(ws[0]);
      if |ws| == 1 {
        assert Flatten(ws[1..]) == [];
      } else {
        var rest := JoinWords(ws[1..]);
        JoinFlatten(ws[1..]);
        assert AlnumOnly("-") == [];
        calc {
          AlnumOnly(JoinWords(ws));
          AlnumOnly(ws[0] + "-" + rest);
          { AlnumOnlyAppend(ws[0] + "-", rest); }
          AlnumOnly(ws[0] + "-") + AlnumOnly(rest);
          { AlnumOnlyAppend(ws[0], "-"); }
          ws[0] + Flatten(ws[1..]);
        }
      }
    }
  }

  /** The ASCII letters and digits of the folded text survive, in order, and nothing else alphanumeric appears. */
  lemma AlnumsSurviveInOrder(name: string, neighborhood: Option<string>)
    ensures AlnumOnly(Slugify(name, neighborhood))
            == AlnumOnly(Folded(name + " " + NeighborhoodText(neighborhood)))
  {
    var f := Folded(name + " " + NeighborhoodText(neighborhood));
    SlugIsJoinedWords(name, neighborhood);
    JoinFlatten(Words(f));
    WordsFlatten(f);
  }

  // ---------------------------------------------------------------------
  // The neighbourhood and the trailing space

  lemma {:induction false} TrimStartAppend(x: string, y: string, p: char -> bool)
    ensures TrimStart(x + y, p) == if TrimStart(x, p) == [] then TrimStart(y, p) else TrimStart(x, p) + y
  {
    if x == [] {
      assert x + y == y;
    } else {
      assert (x + y)[0] == x[0];
      assert (x + y)[1..] == x[1..] + y;
      if p(x[0]) {
        TrimStartAppend(x[1..], y, p);
      }
    }
  }

  lemma StripTrailingSpace(x: string)
    ensures PyStrip(x + " ") == PyStrip(x)
  {
    TrimStartAppend(x, " ", IsPySpace);
    var t := TrimStart(x, IsPySpace);
    if t == [] {
      assert TrimStart(" ", IsPySpace) == [];
    } else {
      var t' := t + " ";
      assert IsPySpace(t'[|t'| - 1]);
      assert t'[..|t'| - 1] == t;
      assert TrimEnd(t', IsPySpace) == TrimEnd(t, IsPySpace);
    }
  }

  /** An absent or empty neighbourhood leaves only the name: the space added before it is stripped. */
  lemma NoNeighborhoodIsName(name: string)
    ensures Slugify(name, None) == SlugOfText(name)
    ensures Slugify(name, Some("")) == SlugOfText(name)
  {
    assert name + " " + NeighborhoodText(None) == name + " ";
    assert name + " " + NeighborhoodText(Some("")) == name + " ";
    StripTrailingSpace(name);
    assert Folded(name + " ") == Folded(name);
  }

  // ---------------------------------------------------------------------
  // Idempotence

  lemma {:induction false} HyphenateKeepsSlug(s: string)
    requires SlugChars(s) && NoDoubleHyphen(s)
    requires s != [] ==> s[|s| - 1] != '-'
    ensures Hyphenate(s) == s
  {
    if s != [] {
      var u := s[1..];
      assert SlugChars(u) && NoDoubleHyphen(u) by {
        assert forall i :: 0 <= i < |u| ==> u[i] == s[i + 1];
      }
      HyphenateKeepsSlug(u);
      if !IsAlnum(s[0]) {
        assert |s| > 1 && s[1] != '-';
      }
    }
  }

  lemma SlugIsFixedByFolding(r: string)
    requires IsSlug(r)
    ensures Folded(r + " ") == r
  {
    StripTrailingSpace(r);
    if r != [] {
      assert IsAlnum(r[0]) && IsAlnum(r[|r| - 1]);
    }
    TrimKeeps(r, IsPySpace);
    assert Lower(r) == r;
    assert IsAscii(r);
  }

  /** Slugifying a slug changes nothing: `slugify(slugify(x)) == slugify(x)`. */
  lemma SlugifyIdempotent(name: string, neighborhood: Option<string>)
    ensures Slugify(Slugify(name, neighborhood), None) == Slugify(name, neighborhood)
  {
    var r := Slugify(name, neighborhood);
    assert r + " " + NeighborhoodText(None) == r + " ";
    SlugIsFixedByFolding(r);
    HyphenateKeepsSlug(r);
    TrimKeeps(r, IsHyphen);
    assert SlugOfFolded(r) == r;
  }

  // ---------------------------------------------------------------------
  // Worked examples

  lemma SymbolsOnly()
    ensures Slugify("***", None) == ""
  {
    assert "***" + " " + NeighborhoodText(None) == "*** ";
    SymbolsFold();
    assert Slugify("***", None) == SlugOfFolded("***");
    SymbolsHaveNoWords();
    FoldedSlugIsJoinedWords("***");
  }

  lemma SymbolsHaveNoWords()
    ensures Words("***") == []
  {
    var s := "***";
    assert !IsAlnum(s[0]) && !IsAlnum(s[1]) && !IsAlnum(s[2]);
    WordsEmpty(s);
  }

  lemma SymbolsFold()
    ensures Folded("*** ") == "***"
  {
    SymbolsStrip();
    SymbolsLower();
    assert IsAscii("***");
  }

  lemma SymbolsStrip()
    ensures PyStrip("*** ") == "***"
  {
    assert "*** " == "***" + " ";
    StripTrailingSpace("***");
    TrimKeeps("***", IsPySpace);
  }

  lemma SymbolsLower()
    ensures Lower("***") == "***"
  {
    var l := Lower("***");
    assert |l| == 3 && l[0] == '*' && l[1] == '*' && l[2] == '*';
  }
}
