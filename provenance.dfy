/**
 * The provenance entry of scripts/utils/provenance.py: which provider a set of
 * fields came from, under which place id, and on which (UTC) day. The clock is a
 * parameter: `today` is the date `datetime.utcnow()` would return.
 */
module Provenance {
  import opened Wrappers
  import opened Text
  import opened JsonValue

  datatype Date = Date(year: nat, month: nat, day: nat)

  predicate IsLeapYear(y: int) {
    y % 4 == 0 && (y % 100 != 0 || y % 400 == 0)
  }

  function DaysInMonth(y: int, m: int): int {
    if m == 2 then (if IsLeapYear(y) then 29 else 28)
    else if m == 4 || m == 6 || m == 9 || m == 11 then 30
    else 31
  }

  /** A date `datetime` can hold: years 1..9999 of the proleptic Gregorian calendar. */
  predicate ValidDate(d: Date) {
    1 <= d.year <= 9999 && 1 <= d.month <= 12 && 1 <= d.day <= DaysInMonth(d.year, d.month)
  }

  /**
   * `strftime("%Y-%m-%d")`. Month and day always have two digits; the year has
   * four from 1000 on, and below 1000 the C library writes it without padding.
   */
  function FormatDate(d: Date): (s: string) {
    (if d.year >= 1000 then PadDigits(d.year, 4) else NatToString(d.year))
    + "-" + PadDigits(d.month, 2) + "-" + PadDigits(d.day, 2)
  }

  /** An ISO calendar date `YYYY-MM-DD`: ten characters, hyphens at 4 and 7, digits elsewhere. */
  predicate IsIsoDate(s: string) {
    && |s| == 10 && s[4] == '-' && s[7] == '-'
    && forall i :: 0 <= i < 10 && i != 4 && i != 7 ==> IsDigit(s[i])
  }

  /** Reads a `YYYY-MM-DD` string back; None for anything else. */
  function ParseDate(s: string): (r: Option<Date>)
    ensures r.Some? ==> IsIsoDate(s)
  {
    if IsIsoDate(s) then
      Some(Date(DigitsValue(s[..4]), DigitsValue(s[5..7]), DigitsValue(s[8..])))
    else None
  }

  lemma FormatDateIsIso(d: Date)
    requires ValidDate(d) && d.year >= 1000
    ensures IsIsoDate(FormatDate(d))
  {
    var s := FormatDate(d);
    var y, m, dd := PadDigits(d.year, 4), PadDigits(d.month, 2), PadDigits(d.day, 2);
    assert s == y + "-" + m + "-" + dd;
    assert forall i :: 0 <= i < 4 ==> s[i] == y[i];
    assert forall i :: 5 <= i < 7 ==> s[i] == m[i - 5];
    assert forall i :: 8 <= i < 10 ==> s[i] == dd[i - 8];
  }

  /** Formatting loses nothing: the date can be read back from its text. */
  lemma ParseFormatDate(d: Date)
    requires ValidDate(d) && d.year >= 1000
    ensures ParseDate(FormatDate(d)) == Some(d)
  {
    var s := FormatDate(d);
    var y, m, dd := PadDigits(d.year, 4), PadDigits(d.month, 2), PadDigits(d.day, 2);
    FormatDateIsIso(d);
    assert s == y + "-" + m + "-" + dd;
    assert s[..4] == y;
    assert s[5..7] == m;
    assert s[8..] == dd;
    assert Pow10(2) == 100;
    assert Pow10(4) == 10000;
  }

  /** Two different days are never recorded as the same `collected_at`. */
  lemma FormatDateInjective(d1: Date, d2: Date)
    requires ValidDate(d1) && d1.year >= 1000
    requires ValidDate(d2) && d2.year >= 1000
    requires FormatDate(d1) == FormatDate(d2)
    ensures d1 == d2
  {
    ParseFormatDate(d1);
    ParseFormatDate(d2);
  }

  /** `make_prov(provider, place_id, fields)` on the day `today`. */
  function MakeProv(provider: string, placeId: Json, fields: seq<string>, today: Date): (r: Json)
    ensures r.JObj?
  {
    JObj([
      ("provider", JStr(provider)),
      ("place_id", placeId),
      ("fields", JArr(StrList(fields))),
      ("terms_url", JNull),
      ("collected_at", JStr(FormatDate(today)))
    ])
  }

  /** The five keys of a provenance entry, in the order the dict literal writes them. */
  const ProvKeys: seq<string> := ["provider", "place_id", "fields", "terms_url", "collected_at"]

  /** The entry has exactly the five keys, each once, in the order the dict literal writes them. */
  lemma MakeProvKeys(provider: string, placeId: Json, fields: seq<string>, today: Date)
    ensures var r := MakeProv(provider, placeId, fields, today).members;
            Keys(r) == ProvKeys && DistinctKeys(r)
  {
    var r := MakeProv(provider, placeId, fields, today).members;
    assert Keys(r) == [r[0].0] + Keys(r[1..]);
    assert Keys(r[1..]) == [r[1].0] + Keys(r[2..]);
    assert Keys(r[2..]) == [r[2].0] + Keys(r[3..]);
    assert Keys(r[3..]) == [r[3].0] + Keys(r[4..]);
    assert Distinct(ProvKeys);
  }

  /**
   * Provider, place id and fields are passed through unchanged, terms_url is
   * null and collected_at is today's date as text.
   */
  lemma MakeProvFields(provider: string, placeId: Json, fields: seq<string>, today: Date)
    ensures var r := MakeProv(provider, placeId, fields, today).members;
            && Lookup(r, "provider") == Some(JStr(provider))
            && Lookup(r, "place_id") == Some(placeId)
            && Lookup(r, "fields") == Some(JArr(StrList(fields)))
            && Lookup(r, "terms_url") == Some(JNull)
            && Lookup(r, "collected_at") == Some(JStr(FormatDate(today)))
  {
    var r := MakeProv(provider, placeId, fields, today).members;
    MakeProvKeys(provider, placeId, fields, today);
    LookupDistinct(r);
    assert Lookup(r, r[0].0) == Some(r[0].1);
    assert Lookup(r, r[1].0) == Some(r[1].1);
    assert Lookup(r, r[2].0) == Some(r[2].1);
    assert Lookup(r, r[3].0) == Some(r[3].1);
    assert Lookup(r, r[4].0) == Some(r[4].1);
  }

  /** The recorded field names read back as the given list. */
  lemma MakeProvFieldsRoundTrip(provider: string, placeId: Json, fields: seq<string>, today: Date)
    ensures var v := Lookup(MakeProv(provider, placeId, fields, today).members, "fields");
            v.Some? && v.value.JArr? && StrsOf(v.value.items) == Some(fields)
  {
    MakeProvFields(provider, placeId, fields, today);
    StrsOfStrList(fields);
  }

  /** From year 1000 on, collected_at is an ISO date that names `today`. */
  lemma CollectedAtIsIsoDate(provider: string, placeId: Json, fields: seq<string>, today: Date)
    requires ValidDate(today) && today.year >= 1000
    ensures var v := Lookup(MakeProv(provider, placeId, fields, today).members, "collected_at");
            v.Some? && v.value.JStr? && IsIsoDate(v.value.s) && ParseDate(v.value.s) == Some(today)
  {
    MakeProvFields(provider, placeId, fields, today);
    ParseFormatDate(today);
  }
}
