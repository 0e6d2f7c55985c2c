/**
 * assets/app.js, opening hours: `minutesFromTime`, `isOpenNow`,
 * `todayHoursString` and the hours table of `renderPlaceDetail`.
 *
 * A place's `hours` is whatever JSON value the dataset holds (None stands for
 * `undefined`); a day's windows are read with JavaScript's property, truthiness
 * and destructuring rules. NaN is None: every comparison with it is false. The
 * clock is a parameter (weekday with Sunday as 0, hour, minute), and so is the
 * conversion of a JSON number to text, which is floating-point formatting.
 */
module OpeningHours {
  import opened Wrappers
  import opened Text
  import opened JsonValue
  import opened Seqs

  // ---------------------------------------------------------------------
  // minutesFromTime

  predicate AllDigits(s: string) {
    forall i :: 0 <= i < |s| ==> IsDigit(s[i])
  }

  /**
   * `Number(s)` for a string of decimal digits with an optional sign, surrounding
   * white space ignored; the empty string is 0. None (NaN) for anything else.
   */
  function NumberOf(s: string): Option<int> {
    var t := JsTrim(s);
    if t == [] then Some(0)
    else if AllDigits(t) then Some(DigitsValue(t))
    else if |t| > 1 && (t[0] == '-' || t[0] == '+') && AllDigits(t[1..]) then
      var v: int := DigitsValue(t[1..]);
      Some(if t[0] == '-' then -v else v)
    else None
  }

  /** `Number` reads a run of digits as its decimal value, and nothing as 0. */
  lemma NumberOfDigits(s: string)
    requires AllDigits(s)
    ensures NumberOf(s) == Some(DigitsValue(s))
  {
    TrimKeeps(s, IsJsSpace);
  }

  /**
   * `minutesFromTime(str)`: the parts before the first and second `:` as hours
   * and minutes. None (NaN) when there is no `:` (the minutes are `undefined`)
   * or a part is not a number.
   */
  function MinutesFromTime(s: string): Option<int> {
    var parts := SplitAll(s, ':');
    if |parts| < 2 then None
    else
      var h := NumberOf(parts[0]);
      var m := NumberOf(parts[1]);
      if h.Some? && m.Some? then Some(h.value * 60 + m.value) else None
  }

  /** Two `:`-free numbers joined by `:` read as the first times 60 plus the second. */
  lemma MinutesOfNumbers(hh: string, mm: string)
    requires ':' !in hh && ':' !in mm
    requires NumberOf(hh).Some? && NumberOf(mm).Some?
    ensures MinutesFromTime(hh + [':'] + mm) == Some(NumberOf(hh).value * 60 + NumberOf(mm).value)
  {
    SplitAllTwo(hh, ':', mm);
  }

  /** `Number` of one or two digits. */
  lemma NumberOfTwo(a: char, b: char)
    requires IsDigit(a) && IsDigit(b)
    ensures NumberOf([a, b]) == Some(DigitValue(a) * 10 + DigitValue(b))
    ensures ':' !in [a, b]
  {
    NumberOfDigits([a, b]);
    assert [a, b][..1] == [a] && [a][..0] == [];
    assert DigitsValue([a]) == DigitValue(a);
  }

  /** `"HH:MM"` written in digits reads as `HH * 60 + MM`. */
  lemma MinutesOfDigits(h1: char, h2: char, m1: char, m2: char)
    requires IsDigit(h1) && IsDigit(h2) && IsDigit(m1) && IsDigit(m2)
    ensures MinutesFromTime([h1, h2, ':', m1, m2])
            == Some((DigitValue(h1) * 10 + DigitValue(h2)) * 60 + DigitValue(m1) * 10 + DigitValue(m2))
  {
    NumberOfTwo(h1, h2);
    NumberOfTwo(m1, m2);
    assert [h1, h2, ':', m1, m2] == [h1, h2] + [':'] + [m1, m2];
    MinutesOfNumbers([h1, h2], [m1, m2]);
  }

  /** A time of day as `"HH:MM"`, the way the dataset writes window ends. */
  function TimeOfMinutes(n: nat): string
    requires n < 24 * 60
  {
    var h, m := n / 60, n % 60;
    [DigitChar(h / 10), DigitChar(h % 10), ':', DigitChar(m / 10), DigitChar(m % 10)]
  }

  /** minutesFromTime inverts TimeOfMinutes. */
  lemma MinutesOfTime(n: nat)
    requires n < 24 * 60
    ensures MinutesFromTime(TimeOfMinutes(n)) == Some(n)
  {
    var h, m := n / 60, n % 60;
    MinutesOfDigits(DigitChar(h / 10), DigitChar(h % 10), DigitChar(m / 10), DigitChar(m % 10));
  }

  // ---------------------------------------------------------------------
  // Reading a day's windows

  /** `['Sun','Mon','Tue','Wed','Thu','Fri','Sat']`, indexed by `getDay()`. */
  const JsDays: seq<string> := ["Sun", "Mon", "Tue", "Wed", "Thu", "Fri", "Sat"]

  type Weekday = d: nat | d < 7

  /** The reading of `new Date()` that matters: `getDay()`, `getHours()`, `getMinutes()`. */
  datatype Clock = Clock(weekday: Weekday, hour: nat, minute: nat)

  /** `hours[day] || []`. */
  function DayWindows(hours: Option<Json>, day: string): Json {
    var v := JsProp(hours, day);
    if JsTruthy(v) then v.value else JArr([])
  }

  /** `xs[i]` in JavaScript: None (undefined) past the end. */
  function At(xs: seq<Json>, i: nat): Option<Json> {
    if i < |xs| then Some(xs[i]) else None
  }

  /**
   * `const [open, close] = w`: the first two elements of an array, or the first
   * two characters of a string. None when `w` is not iterable (a TypeError).
   */
  function WindowEnds(w: Json): Option<(Option<Json>, Option<Json>)> {
    match w
    case JArr(xs) => Some((At(xs, 0), At(xs, 1)))
    case JStr(s) => Some((if |s| > 0 then Some(JStr([s[0]])) else None, if |s| > 1 then Some(JStr([s[1]])) else None))
    case _ => None
  }

  /**
   * `minutesFromTime(x)` for a window end. `String(x)` of `undefined`, `null`,
   * a boolean, a number or an object has no `:`, so only a string can give a time.
   */
  function EndMinutes(x: Option<Json>): Option<int> {
    if x.Some? && x.value.JStr? then MinutesFromTime(x.value.s) else None
  }

  // ---------------------------------------------------------------------
  // isOpenNow

  /** `a <= b` in JavaScript, false when either side is NaN. */
  predicate Le(a: Option<int>, b: Option<int>) {
    a.Some? && b.Some? && a.value <= b.value
  }

  /** The test of one window at `nowMin` minutes past midnight. */
  predicate InWindow(nowMin: int, open: Option<int>, close: Option<int>) {
    if Le(open, close) then Le(open, Some(nowMin)) && Le(Some(nowMin), close)
    else Le(open, Some(nowMin)) || Le(Some(nowMin), close)
  }

  /** A window that closes no earlier than it opens holds both its ends. */
  lemma InWindowSameDay(nowMin: int, open: int, close: int)
    requires open <= close
    ensures InWindow(nowMin, Some(open), Some(close)) <==> open <= nowMin <= close
  {
  }

  /** A window that closes before it opens runs over midnight. */
  lemma InWindowOvernight(nowMin: int, open: int, close: int)
    requires open > close
    ensures InWindow(nowMin, Some(open), Some(close)) <==> nowMin >= open || nowMin <= close
  {
  }

  /**
   * A window with an unreadable end is not skipped: it falls to the overnight
   * branch, where the readable end alone decides.
   */
  lemma InWindowHalfRead(nowMin: int, end: int)
    ensures InWindow(nowMin, None, Some(end)) <==> nowMin <= end
    ensures InWindow(nowMin, Some(end), None) <==> nowMin >= end
    ensures !InWindow(nowMin, None, None)
  {
  }

  /** A window, once destructured, holds the time `nowMin`. */
  predicate Holds(w: Json, nowMin: int)
    requires WindowEnds(w).Some?
  {
    InWindow(nowMin, EndMinutes(WindowEnds(w).value.0), EndMinutes(WindowEnds(w).value.1))
  }

  /**
   * The `for (const [open, close] of windows)` loop: true at the first window
   * that holds the time, None at a window that cannot be destructured before that.
   */
  function AnyOpen(ws: seq<Json>, nowMin: int): Option<bool> {
    if ws == [] then Some(false)
    else if WindowEnds(ws[0]).None? then None
    else if Holds(ws[0], nowMin) then Some(true)
    else AnyOpen(ws[1..], nowMin)
  }

  /** `const nowMin = now.getHours() * 60 + now.getMinutes()`. */
  function NowMinutes(now: Clock): int {
    now.hour * 60 + now.minute
  }

  /** The windows the loop walks, or None when `isOpenNow` returns false before it. */
  function TodayList(hours: Option<Json>, now: Clock): Option<seq<Json>> {
    if !JsTruthy(hours) then None
    else
      var windows := DayWindows(hours, JsDays[now.weekday]);
      if !windows.JArr? || windows.items == [] then None else Some(windows.items)
  }

  /** `isOpenNow(hours, now)`; None when it throws. */
  function OpenNow(hours: Option<Json>, now: Clock): Option<bool> {
    match TodayList(hours, now)
    case None => Some(false)
    case Some(ws) => AnyOpen(ws, NowMinutes(now))
  }

  /** One step of the loop: the window at `i` decides, or the rest of the list does. */
  lemma AnyOpenFrom(ws: seq<Json>, i: nat, nowMin: int)
    requires i < |ws|
    ensures AnyOpen(ws[i..], nowMin)
            == if WindowEnds(ws[i]).None? then None
               else if Holds(ws[i], nowMin) then Some(true)
               else AnyOpen(ws[i + 1..], nowMin)
  {
    assert ws[i..][0] == ws[i];
    assert ws[i..][1..] == ws[i + 1..];
  }

  /** `isOpenNow`, with its early returns. */
  method IsOpenNow(hours: Option<Json>, now: Clock) returns (r: Option<bool>)
    ensures r == OpenNow(hours, now)
  {
    if !JsTruthy(hours) {
      return Some(false);
    }
    var windows := DayWindows(hours, JsDays[now.weekday]);
    if !windows.JArr? || |windows.items| == 0 {
      return Some(false);
    }
    var ws := windows.items;
    var nowMin := now.hour * 60 + now.minute;
    assert OpenNow(hours, now) == AnyOpen(ws, nowMin);
    var i := 0;
    while i < |ws|
      invariant 0 <= i <= |ws|
      invariant AnyOpen(ws[i..], nowMin) == AnyOpen(ws, nowMin)
    {
      AnyOpenFrom(ws, i, nowMin);
      var ends := WindowEnds(ws[i]);
      if ends.None? {
        return None;
      }
      var openMin := EndMinutes(ends.value.0);
      var closeMin := EndMinutes(ends.value.1);
      assert Holds(ws[i], nowMin) == InWindow(nowMin, openMin, closeMin);
      if Le(openMin, closeMin) {
        if Le(Some(nowMin), closeMin) && Le(openMin, Some(nowMin)) {
          return Some(true);
        }
      } else {
        if Le(openMin, Some(nowMin)) || Le(Some(nowMin), closeMin) {
          return Some(true);
        }
      }
      i := i + 1;
    }
    return Some(false);
  }

  /** Every window can be destructured. */
  predicate AllShaped(ws: seq<Json>) {
    forall i :: 0 <= i < |ws| ==> WindowEnds(ws[i]).Some?
  }

  /** The loop gets to window `i` and it holds the time. */
  predicate OpensAt(ws: seq<Json>, i: nat, nowMin: int) {
    && i < |ws|
    && (forall j :: 0 <= j <= i ==> WindowEnds(ws[j]).Some?)
    && Holds(ws[i], nowMin)
  }

  /** The loop gets to window `i`, no earlier window holding the time, and cannot destructure it. */
  predicate ThrowsAt(ws: seq<Json>, i: nat, nowMin: int) {
    && i < |ws|
    && (forall j :: 0 <= j < i ==> WindowEnds(ws[j]).Some? && !Holds(ws[j], nowMin))
    && WindowEnds(ws[i]).None?
  }

  lemma ShiftAt(ws: seq<Json>, nowMin: int)
    requires ws != [] && WindowEnds(ws[0]).Some? && !Holds(ws[0], nowMin)
    ensures forall i: nat :: OpensAt(ws[1..], i, nowMin) <==> OpensAt(ws, i + 1, nowMin)
    ensures forall i: nat :: ThrowsAt(ws[1..], i, nowMin) <==> ThrowsAt(ws, i + 1, nowMin)
    ensures !OpensAt(ws, 0, nowMin) && !ThrowsAt(ws, 0, nowMin)
  {
    var tail := ws[1..];
    assert forall j :: 0 <= j < |tail| ==> tail[j] == ws[j + 1];
    forall i: nat ensures OpensAt(tail, i, nowMin) <==> OpensAt(ws, i + 1, nowMin) {
      if OpensAt(ws, i + 1, nowMin) {
        assert forall j :: 0 <= j <= i ==> WindowEnds(tail[j]).Some? by {
          forall j | 0 <= j <= i ensures WindowEnds(tail[j]).Some? {
            assert WindowEnds(ws[j + 1]).Some?;
          }
        }
      }
      if OpensAt(tail, i, nowMin) {
        forall j | 0 <= j <= i + 1 ensures WindowEnds(ws[j]).Some? {
          if j > 0 {
            assert WindowEnds(tail[j - 1]).Some?;
          }
        }
      }
    }
    forall i: nat ensures ThrowsAt(tail, i, nowMin) <==> ThrowsAt(ws, i + 1, nowMin) {
      if ThrowsAt(ws, i + 1, nowMin) {
        forall j | 0 <= j < i ensures WindowEnds(tail[j]).Some? && !Holds(tail[j], nowMin) {
          assert WindowEnds(ws[j + 1]).Some? && !Holds(ws[j + 1], nowMin);
        }
      }
      if ThrowsAt(tail, i, nowMin) {
        forall j | 0 <= j < i + 1 ensures WindowEnds(ws[j]).Some? && !Holds(ws[j], nowMin) {
          if j > 0 {
            assert WindowEnds(tail[j - 1]).Some? && !Holds(tail[j - 1], nowMin);
          }
        }
      }
    }
  }

  /**
   * The loop finds a window holding the time iff it gets to one; it throws iff
   * it meets a window it cannot destructure first.
   */
  lemma {:induction false} AnyOpenIff(ws: seq<Json>, nowMin: int)
    ensures AnyOpen(ws, nowMin) == Some(true) <==> exists i: nat :: OpensAt(ws, i, nowMin)
    ensures AnyOpen(ws, nowMin).None? <==> exists i: nat :: ThrowsAt(ws, i, nowMin)
  {
    if ws != [] {
      if WindowEnds(ws[0]).None? {
        assert ThrowsAt(ws, 0, nowMin);
        assert forall i: nat :: !OpensAt(ws, i, nowMin);
      } else if Holds(ws[0], nowMin) {
        assert OpensAt(ws, 0, nowMin);
        assert forall i: nat :: !ThrowsAt(ws, i, nowMin);
      } else {
        AnyOpenIff(ws[1..], nowMin);
        ShiftAt(ws, nowMin);
        if exists i: nat :: OpensAt(ws, i, nowMin) {
          var i: nat :| OpensAt(ws, i, nowMin);
          assert OpensAt(ws[1..], i - 1, nowMin);
        }
        if exists i: nat :: ThrowsAt(ws, i, nowMin) {
          var i: nat :| ThrowsAt(ws, i, nowMin);
          assert ThrowsAt(ws[1..], i - 1, nowMin);
        }
      }
    }
  }

  /** With every window well formed, the loop asks whether some window holds the time. */
  lemma AnyOpenShaped(ws: seq<Json>, nowMin: int)
    requires AllShaped(ws)
    ensures AnyOpen(ws, nowMin) == Some(exists i :: 0 <= i < |ws| && Holds(ws[i], nowMin))
  {
    AnyOpenIff(ws, nowMin);
    assert forall i: nat :: !ThrowsAt(ws, i, nowMin);
    if exists i :: 0 <= i < |ws| && Holds(ws[i], nowMin) {
      var i :| 0 <= i < |ws| && Holds(ws[i], nowMin);
      assert OpensAt(ws, i, nowMin);
    }
  }

  /** So the order of well-formed windows does not matter. */
  lemma AnyOpenReordered(ws: seq<Json>, ws': seq<Json>, nowMin: int)
    requires AllShaped(ws) && multiset(ws) == multiset(ws')
    ensures AnyOpen(ws, nowMin) == AnyOpen(ws', nowMin)
  {
    forall i | 0 <= i < |ws'| ensures WindowEnds(ws'[i]).Some? {
      assert ws'[i] in multiset(ws);
    }
    AnyOpenShaped(ws, nowMin);
    AnyOpenShaped(ws', nowMin);
    if exists i :: 0 <= i < |ws| && Holds(ws[i], nowMin) {
      var i :| 0 <= i < |ws| && Holds(ws[i], nowMin);
      assert ws[i] in multiset(ws');
      var k :| 0 <= k < |ws'| && ws'[k] == ws[i];
    }
    if exists i :: 0 <= i < |ws'| && Holds(ws'[i], nowMin) {
      var i :| 0 <= i < |ws'| && Holds(ws'[i], nowMin);
      assert ws'[i] in multiset(ws);
      var k :| 0 <= k < |ws| && ws[k] == ws'[i];
    }
  }

  /**
   * `isOpenNow` is false when `hours` is falsy, or today's entry is missing,
   * falsy, not an array or empty; otherwise it is the loop over today's windows.
   */
  lemma OpenNowCases(hours: Option<Json>, now: Clock)
    ensures var today := JsProp(hours, JsDays[now.weekday]);
            OpenNow(hours, now)
            == if !JsTruthy(hours) || !JsTruthy(today) || !today.value.JArr? || today.value.items == [] then Some(false)
               else AnyOpen(today.value.items, NowMinutes(now))
  {
  }

  // ---------------------------------------------------------------------
  // todayHoursString and the hours table

  /**
   * `${x}` for a JSON value (None is `undefined`). Numbers go through `numText`,
   * JavaScript's number formatting.
   */
  function JsText(x: Option<Json>, numText: (int, int) -> string): string
    decreases if x.Some? then 1 + JsonSize(x.value) else 0
  {
    match x
    case None => "undefined"
    case Some(JNull) => "null"
    case Some(JBool(b)) => if b then "true" else "false"
    case Some(JNum(m, e)) => numText(m, e)
    case Some(JStr(s)) => s
    case Some(JArr(xs)) => ArrText(xs, numText)
    case Some(JObj(_)) => "[object Object]"
  }

  /** `String(array)`: the items joined with `,`, where `null` and `undefined` give nothing. */
  function ArrText(xs: seq<Json>, numText: (int, int) -> string): string
    decreases 1 + ItemsSize(xs)
  {
    if xs == [] then []
    else
      var first := if xs[0].JNull? then [] else JsText(Some(xs[0]), numText);
      if |xs| == 1 then first else first + "," + ArrText(xs[1..], numText)
  }

  function JsonSize(j: Json): nat {
    match j
    case JArr(xs) => 1 + ItemsSize(xs)
    case _ => 1
  }

  function ItemsSize(xs: seq<Json>): nat {
    if xs == [] then 0 else 1 + JsonSize(xs[0]) + ItemsSize(xs[1..])
  }

  /** The en dash `–` between a window's ends. */
  const Dash: string := "–"

  /** `${o}–${c}` for one window; None when it cannot be destructured. */
  function WindowText(w: Json, numText: (int, int) -> string): Option<string> {
    match WindowEnds(w)
    case None => None
    case Some((o, c)) => Some(JsText(o, numText) + Dash + JsText(c, numText))
  }

  /** `windows.map(([o, c]) => ...)`; None when one of them throws. */
  function WindowTexts(ws: seq<Json>, numText: (int, int) -> string): (r: Option<seq<string>>)
    ensures r.Some? <==> AllShaped(ws)
    ensures r.Some? ==> |r.value| == |ws| && forall i :: 0 <= i < |ws| ==> Some(r.value[i]) == WindowText(ws[i], numText)
  {
    if ws == [] then Some([])
    else
      var rest := WindowTexts(ws[1..], numText);
      assert forall i :: 1 <= i < |ws| ==> ws[i] == ws[1..][i - 1];
      match WindowText(ws[0], numText)
      case None => None
      case Some(t) => if rest.None? then None else Some([t] + rest.value)
  }

  /** The windows joined by `", "`; None when one of them throws. */
  function JoinedWindows(ws: seq<Json>, numText: (int, int) -> string): Option<string> {
    match WindowTexts(ws, numText)
    case None => None
    case Some(ts) => Some(JoinWith(ts, ", "))
  }

  /**
   * `todayHoursString(hours)` on weekday `weekday`. `windows.length === 0` holds
   * for an empty array only; any other truthy value reaches `windows.map`, which
   * only an array has, so it throws (None).
   */
  function TodayHours(hours: Option<Json>, weekday: Weekday, numText: (int, int) -> string): Option<string> {
    if !JsTruthy(hours) then Some("Closed")
    else
      var windows := DayWindows(hours, JsDays[weekday]);
      if windows.JArr? then
        if windows.items == [] then Some("Closed") else JoinedWindows(windows.items, numText)
      else None
  }

  /** A joined list of at least one window contains a dash, so it is never "Closed". */
  lemma {:induction false} JoinedHasDash(ts: seq<string>)
    requires ts != [] && forall i :: 0 <= i < |ts| ==> Contains(ts[i], Dash)
    ensures Contains(JoinWith(ts, ", "), Dash)
  {
    if |ts| > 1 {
      JoinedHasDash(ts[1..]);
      ContainsInSuffix(ts[0] + ", ", JoinWith(ts[1..], ", "), Dash);
      assert JoinWith(ts, ", ") == (ts[0] + ", ") + JoinWith(ts[1..], ", ");
    }
  }

  lemma {:induction false} ContainsInSuffix(a: string, b: string, t: string)
    requires Contains(b, t)
    ensures Contains(a + b, t)
  {
    if a != [] {
      assert (a + b)[1..] == a[1..] + b;
      ContainsInSuffix(a[1..], b, t);
    } else {
      assert a + b == b;
    }
  }

  lemma {:induction false} ContainsInPrefix(a: string, b: string, t: string)
    requires Contains(a, t)
    ensures Contains(a + b, t)
  {
    if t <= a {
      assert t <= a + b;
    } else {
      assert (a + b)[1..] == a[1..] + b;
      ContainsInPrefix(a[1..], b, t);
    }
  }

  lemma WindowTextHasDash(w: Json, numText: (int, int) -> string)
    requires WindowText(w, numText).Some?
    ensures Contains(WindowText(w, numText).value, Dash)
  {
    var (o, c) := WindowEnds(w).value;
    var a := JsText(o, numText);
    assert Contains(Dash + JsText(c, numText), Dash) by {
      assert Dash <= Dash + JsText(c, numText);
    }
    ContainsInSuffix(a, Dash + JsText(c, numText), Dash);
    assert a + Dash + JsText(c, numText) == a + (Dash + JsText(c, numText));
  }

  /** "Closed" iff `hours` is falsy or today has no windows (missing, falsy or `[]`). */
  lemma TodayClosedIff(hours: Option<Json>, weekday: Weekday, numText: (int, int) -> string)
    ensures TodayHours(hours, weekday, numText) == Some("Closed") <==>
              !JsTruthy(hours) || DayWindows(hours, JsDays[weekday]) == JArr([])
  {
    var windows := DayWindows(hours, JsDays[weekday]);
    if JsTruthy(hours) && windows.JArr? && windows.items != [] && WindowTexts(windows.items, numText).Some? {
      var ts := WindowTexts(windows.items, numText).value;
      forall i | 0 <= i < |ts| ensures Contains(ts[i], Dash) {
        WindowTextHasDash(windows.items[i], numText);
      }
      JoinedHasDash(ts);
      if Contains("Closed", Dash) {
        ContainsFirst("Closed", Dash);
      }
    }
  }

  /**
   * Otherwise each window `[o, c]` of strings shows as `o–c`, in order, joined
   * by `", "`.
   */
  lemma TodayStringWindows(hours: Option<Json>, weekday: Weekday, numText: (int, int) -> string,
                           ends: seq<(string, string)>)
    requires JsTruthy(hours) && ends != []
    requires DayWindows(hours, JsDays[weekday]) == JArr(seq(|ends|, i requires 0 <= i < |ends| => JArr([JStr(ends[i].0), JStr(ends[i].1)])))
    ensures TodayHours(hours, weekday, numText)
            == Some(JoinWith(seq(|ends|, i requires 0 <= i < |ends| => ends[i].0 + Dash + ends[i].1), ", "))
  {
    var ws := DayWindows(hours, JsDays[weekday]).items;
    var ts := WindowTexts(ws, numText).value;
    assert ts == seq(|ends|, i requires 0 <= i < |ends| => ends[i].0 + Dash + ends[i].1) by {
      forall i | 0 <= i < |ends| ensures ts[i] == ends[i].0 + Dash + ends[i].1 {
        assert WindowText(ws[i], numText) == Some(ends[i].0 + Dash + ends[i].1);
      }
    }
  }

  /** `['Mon','Tue','Wed','Thu','Fri','Sat','Sun']`: the table starts on Monday. */
  const TableDays: seq<string> := ["Mon", "Tue", "Wed", "Thu", "Fri", "Sat", "Sun"]

  /**
   * The cell of day `d`: `windows.length > 0 ? windows.map(...).join(', ') : 'Closed'`
   * over `place.hours?.[d] || []`. A truthy value other than an array or a
   * string has no positive `length`, so it shows "Closed"; a non-empty string
   * reaches `windows.map` and throws.
   */
  function RowText(hours: Option<Json>, d: string, numText: (int, int) -> string): Option<string> {
    var windows := DayWindows(hours, d);
    match windows
    case JArr(ws) => if ws == [] then Some("Closed") else JoinedWindows(ws, numText)
    case JStr(_) => None
    case _ => Some("Closed")
  }

  /** The rows of the table, day and cell, for `days`; None when a cell throws. */
  function Rows(days: seq<string>, cell: string -> Option<string>): Option<seq<(string, string)>> {
    if days == [] then Some([])
    else match Rows(days[..|days| - 1], cell)
      case None => None
      case Some(rows) =>
        match cell(days[|days| - 1])
        case None => None
        case Some(t) => Some(rows + [(days[|days| - 1], t)])
  }

  /** The `days.forEach(d => rows.push(...))` loop. */
  method HoursRows(hours: Option<Json>, numText: (int, int) -> string) returns (rows: Option<seq<(string, string)>>)
    ensures rows == Rows(TableDays, d => RowText(hours, d, numText))
  {
    var days := TableDays;
    var cell := d => RowText(hours, d, numText);
    var acc: seq<(string, string)> := [];
    var i := 0;
    while i < |days|
      invariant 0 <= i <= |days|
      invariant Rows(days[..i], cell) == Some(acc)
    {
      RowsSnoc(days, cell, i);
      var t := cell(days[i]);
      if t.None? {
        RowsFailureSticks(days, cell, i + 1);
        return None;
      }
      acc := acc + [(days[i], t.value)];
      i := i + 1;
    }
    assert days[..i] == days;
    rows := Some(acc);
  }

  /** One more day: its cell is appended, or the table throws. */
  lemma RowsSnoc(days: seq<string>, cell: string -> Option<string>, i: nat)
    requires i < |days|
    ensures Rows(days[..i + 1], cell)
            == match Rows(days[..i], cell)
               case None => None
               case Some(rows) => if cell(days[i]).None? then None else Some(rows + [(days[i], cell(days[i]).value)])
  {
    assert days[..i + 1][..i] == days[..i];
  }

  lemma {:induction false} RowsFailureSticks(days: seq<string>, cell: string -> Option<string>, k: nat)
    requires k <= |days| && Rows(days[..k], cell).None?
    ensures Rows(days, cell).None?
    decreases |days| - k
  {
    if k < |days| {
      assert days[..k + 1][..k] == days[..k];
      RowsFailureSticks(days, cell, k + 1);
    } else {
      assert days[..k] == days;
    }
  }

  /** The rows follow the days, one each, each holding its day's cell. */
  lemma {:induction false} RowsAre(days: seq<string>, cell: string -> Option<string>)
    requires Rows(days, cell).Some?
    ensures var rows := Rows(days, cell).value;
            && |rows| == |days|
            && forall i :: 0 <= i < |days| ==> cell(days[i]).Some? && rows[i] == (days[i], cell(days[i]).value)
  {
    if days != [] {
      var init := days[..|days| - 1];
      RowsAre(init, cell);
      assert forall i :: 0 <= i < |init| ==> days[i] == init[i];
    }
  }

  /** The table has seven rows, Monday to Sunday: the weekdays of `getDay()` from 1, then 0. */
  lemma HoursTableShape(hours: Option<Json>, numText: (int, int) -> string)
    requires Rows(TableDays, d => RowText(hours, d, numText)).Some?
    ensures var rows := Rows(TableDays, d => RowText(hours, d, numText)).value;
            && |rows| == 7
            && forall i :: 0 <= i < 7 ==> rows[i].0 == JsDays[(i + 1) % 7]
                                          && Some(rows[i].1) == RowText(hours, rows[i].0, numText)
  {
    RowsAre(TableDays, d => RowText(hours, d, numText));
    TableDaysFromMonday();
  }

  /** Monday to Sunday are the weekdays 1 to 6 of `getDay()`, then 0. */
  lemma TableDaysFromMonday()
    ensures |TableDays| == 7 && forall i :: 0 <= i < 7 ==> TableDays[i] == JsDays[(i + 1) % 7]
  {
    assert (0 + 1) % 7 == 1 && (5 + 1) % 7 == 6 && (6 + 1) % 7 == 0;
  }

  /**
   * On a day whose windows are an array, that day's row shows what
   * `todayHoursString` shows on that day.
   */
  lemma RowMatchesToday(hours: Option<Json>, weekday: Weekday, numText: (int, int) -> string)
    requires DayWindows(hours, JsDays[weekday]).JArr?
    ensures RowText(hours, JsDays[weekday], numText) == TodayHours(hours, weekday, numText)
  {
    if !JsTruthy(hours) {
      assert !JsTruthy(JsProp(hours, JsDays[weekday]));
    }
  }

  /**
   * The two disagree on a day whose windows are a dict: `todayHoursString`
   * throws on `windows.map`, while the table shows "Closed".
   */
  lemma DictDayDisagrees(numText: (int, int) -> string)
    ensures var hours := Some(JObj([("Mon", JObj([("open", JStr("09:00"))]))]));
            && TodayHours(hours, 1, numText).None?
            && RowText(hours, "Mon", numText) == Some("Closed")
  {
  }
}
