/**
 * scripts/ingest/normalize_places.py: every non-blank line of the raw discovery
 * file holds one JSON record, which becomes one record of the canonical place
 * schema on the output file, in the same order.
 *
 * The uuid generator and the clock are parameters (`newId(k)` is the id the k-th
 * output record gets, `today` the UTC date); the JSON parser is a parameter too,
 * and serialisation is left abstract: the output file is the sequence of records
 * written to it.
 */
module NormalizePlaces {
  import opened Wrappers
  import opened Text
  import opened JsonValue
  import opened Slug
  import opened Provenance
  import Seqs

  /** Why the script stops with an exception part-way through the input. */
  datatype Failure =
    | InvalidJson     // json.loads raises JSONDecodeError
    | NotAnObject     // rec.get on a list, string, number, bool or null
    | NameNotString   // .strip() on a non-string name

  /** The raw name, `rec.get("name", "")`. */
  function RawName(rec: seq<(string, Json)>): Json {
    LookupOr(rec, "name", JStr(""))
  }

  const NormalKeys: seq<string> :=
    ["id", "slug", "name", "categories", "location", "actions", "hours", "provenance", "last_updated"]

  /** The `location` sub-record. */
  function Location(m: seq<(string, Json)>): Json {
    JObj([("lat", Get(m, "lat")), ("lng", Get(m, "lng")),
          ("address", Get(m, "address")), ("neighborhood", Get(m, "neighborhood"))])
  }

  /** The `actions` sub-record. */
  function Actions(m: seq<(string, Json)>): Json {
    JObj([("website", Get(m, "website")), ("phone", Get(m, "phone")), ("maps_url", Get(m, "maps_url"))])
  }

  /** `rec.get("hours") or {}`. */
  function Hours(m: seq<(string, Json)>): Json {
    var hours := Get(m, "hours");
    if PyTruthy(hours) then hours else JObj([])
  }

  /** The single provenance entry: the raw provider goes in as the place id. */
  function DiscoveryProv(m: seq<(string, Json)>, today: Date): Json
  {
    MakeProv("discovery", LookupOr(m, "provider", JStr("unknown")), Keys(m), today)
  }

  /** The members of the `normalized` dict, for a record whose name is `name`. */
  function NormalMembers(m: seq<(string, Json)>, name: string, id: string, today: Date): seq<(string, Json)>
  {
    [ ("id", JStr(id)),
      ("slug", JStr(Slugify(name, None))),
      ("name", JStr(PyStrip(name))),
      ("categories", LookupOr(m, "categories", JArr([]))),
      ("location", Location(m)),
      ("actions", Actions(m)),
      ("hours", Hours(m)),
      ("provenance", JArr([DiscoveryProv(m, today)])),
      ("last_updated", Get(m, "collected_at")) ]
  }

  /** The `normalized` dict built for one raw record, or the exception building it raises. */
  function NormalizeRecord(rec: Json, id: string, today: Date): (r: Result<Json, Failure>)
    ensures r.Ok? <==> rec.JObj? && RawName(rec.members).JStr?
    ensures r.Err? ==> r.error == if rec.JObj? then NameNotString else NotAnObject
    ensures r.Ok? ==> r.value.JObj?
  {
    if !rec.JObj? then Err(NotAnObject)
    else if !RawName(rec.members).JStr? then Err(NameNotString)
    else Ok(JObj(NormalMembers(rec.members, RawName(rec.members).s, id, today)))
  }


  // ---------------------------------------------------------------------
  // What one output record holds

  /** The output record has the nine keys of the schema, each once, in this order. */
  lemma NormalizeRecordKeys(m: seq<(string, Json)>, id: string, today: Date)
    requires RawName(m).JStr?
    ensures var r := NormalizeRecord(JObj(m), id, today);
            r.Ok? && Keys(r.value.members) == NormalKeys && DistinctKeys(r.value.members)
  {
    NormalMembersKeys(m, RawName(m).s, id, today);
    NormalKeysDistinct();
  }

  lemma NormalKeysDistinct()
    ensures Distinct(NormalKeys)
  {
  }

  lemma NormalMembersKeys(m: seq<(string, Json)>, name: string, id: string, today: Date)
    ensures Keys(NormalMembers(m, name, id, today)) == NormalKeys
  {
    var n := NormalMembers(m, name, id, today);
    SchemaKeys(n[0].1, n[1].1, n[2].1, n[3].1, n[4].1, n[5].1, n[6].1, n[7].1, n[8].1);
  }

  lemma SchemaKeys(v0: Json, v1: Json, v2: Json, v3: Json, v4: Json, v5: Json, v6: Json, v7: Json, v8: Json)
    ensures Keys([("id", v0), ("slug", v1), ("name", v2), ("categories", v3), ("location", v4),
                  ("actions", v5), ("hours", v6), ("provenance", v7), ("last_updated", v8)]) == NormalKeys
  {
    var ks := Keys([("id", v0), ("slug", v1), ("name", v2), ("categories", v3), ("location", v4),
                    ("actions", v5), ("hours", v6), ("provenance", v7), ("last_updated", v8)]);
    assert ks[0] == "id" && ks[1] == "slug" && ks[2] == "name" && ks[3] == "categories";
    assert ks[4] == "location" && ks[5] == "actions" && ks[6] == "hours";
    assert ks[7] == "provenance" && ks[8] == "last_updated";
  }

  /** `name` holds the raw name, or "" when the record has none. */
  predicate NameOf(m: seq<(string, Json)>, name: string) {
    Lookup(m, "name") == Some(JStr(name)) || ("name" !in Keys(m) && name == "")
  }

  lemma RawNameIs(m: seq<(string, Json)>, name: string)
    requires NameOf(m, name)
    ensures RawName(m) == JStr(name)
  {
  }

  /**
   * The slug is slugify of the raw name (never with a neighbourhood), the name is
   * stripped, categories default to [], hours to {} unless truthy, and
   * last_updated is the raw collected_at.
   */
  lemma NormalizeRecordFields(m: seq<(string, Json)>, name: string, id: string, today: Date)
    requires NameOf(m, name)
    ensures NormalizeRecord(JObj(m), id, today).Ok?
    ensures var n := NormalizeRecord(JObj(m), id, today).value.members;
            && Lookup(n, "id") == Some(JStr(id))
            && Lookup(n, "slug") == Some(JStr(Slugify(name, None)))
            && Lookup(n, "name") == Some(JStr(PyStrip(name)))
            && Lookup(n, "categories") == (if "categories" in Keys(m) then Lookup(m, "categories") else Some(JArr([])))
            && Lookup(n, "hours") == Some(if PyTruthy(Get(m, "hours")) then Get(m, "hours") else JObj([]))
            && Lookup(n, "last_updated") == Some(Get(m, "collected_at"))
    ensures var n := NormalizeRecord(JObj(m), id, today).value.members;
            Lookup(n, "location") == Some(Location(m)) && Lookup(n, "actions") == Some(Actions(m))
  {
    RawNameIs(m, name);
    NormalizeRecordKeys(m, id, today);
    var n := NormalizeRecord(JObj(m), id, today).value.members;
    LookupDistinct(n);
    NamedFields(m, name, id, today, n);
    PlaceFields(n, Location(m), Actions(m));
  }

  /** The copied and computed fields of the output record, one key at a time. */
  lemma NamedFields(m: seq<(string, Json)>, name: string, id: string, today: Date, n: seq<(string, Json)>)
    requires n == NormalMembers(m, name, id, today)
    requires forall i :: 0 <= i < |n| ==> Lookup(n, n[i].0) == Some(n[i].1)
    ensures Lookup(n, "id") == Some(JStr(id))
    ensures Lookup(n, "slug") == Some(JStr(Slugify(name, None)))
    ensures Lookup(n, "name") == Some(JStr(PyStrip(name)))
    ensures Lookup(n, "categories") == (if "categories" in Keys(m) then Lookup(m, "categories") else Some(JArr([])))
    ensures Lookup(n, "hours") == Some(if PyTruthy(Get(m, "hours")) then Get(m, "hours") else JObj([]))
    ensures Lookup(n, "last_updated") == Some(Get(m, "collected_at"))
  {
    assert Lookup(n, n[0].0) == Some(n[0].1);
    assert Lookup(n, n[1].0) == Some(n[1].1);
    assert Lookup(n, n[2].0) == Some(n[2].1);
    assert Lookup(n, n[3].0) == Some(n[3].1);
    assert Lookup(n, n[6].0) == Some(n[6].1);
    assert Lookup(n, n[8].0) == Some(n[8].1);
  }

  /** The location and actions records of the output record. */
  lemma PlaceFields(n: seq<(string, Json)>, location: Json, actions: Json)
    requires |n| > 5 && n[4] == ("location", location) && n[5] == ("actions", actions)
    requires forall i :: 0 <= i < |n| ==> Lookup(n, n[i].0) == Some(n[i].1)
    ensures Lookup(n, "location") == Some(location) && Lookup(n, "actions") == Some(actions)
  {
    assert Lookup(n, n[4].0) == Some(n[4].1);
    assert Lookup(n, n[5].0) == Some(n[5].1);
  }

  /** The hours of an output record are never falsy-but-present: {} stands for every falsy raw value. */
  lemma HoursTruthyOrEmpty(m: seq<(string, Json)>)
    ensures PyTruthy(Hours(m)) || Hours(m) == JObj([])
    ensures PyTruthy(Get(m, "hours")) ==> Hours(m) == Get(m, "hours")
  {
  }

  /** location and actions copy their fields from the raw record, with null when absent. */
  lemma LocationActionsFields(m: seq<(string, Json)>)
    ensures var l := Location(m).members;
            && Keys(l) == ["lat", "lng", "address", "neighborhood"]
            && forall k :: k in Keys(l) ==> Lookup(l, k) == Some(Get(m, k))
    ensures var a := Actions(m).members;
            && Keys(a) == ["website", "phone", "maps_url"]
            && forall k :: k in Keys(a) ==> Lookup(a, k) == Some(Get(m, k))
  {
    LocationFields(m);
    ActionsFields(m);
  }

  lemma LocationFields(m: seq<(string, Json)>)
    ensures var l := Location(m).members;
            && Keys(l) == ["lat", "lng", "address", "neighborhood"]
            && forall k :: k in Keys(l) ==> Lookup(l, k) == Some(Get(m, k))
  {
    var ks := ["lat", "lng", "address", "neighborhood"];
    assert Location(m).members == CopyOf(m, ks);
    LocationKeysDistinct();
    CopyFields(m, ks);
  }

  lemma LocationKeysDistinct()
    ensures Distinct(["lat", "lng", "address", "neighborhood"])
  {
    var ks := ["lat", "lng", "address", "neighborhood"];
    assert ks[0][1] == 'a' && ks[1][1] == 'n' && ks[2][0] == 'a' && ks[3][0] == 'n';
  }

  lemma ActionsFields(m: seq<(string, Json)>)
    ensures var a := Actions(m).members;
            && Keys(a) == ["website", "phone", "maps_url"]
            && forall k :: k in Keys(a) ==> Lookup(a, k) == Some(Get(m, k))
  {
    var ks := ["website", "phone", "maps_url"];
    assert Actions(m).members == CopyOf(m, ks);
    assert Distinct(ks) by { assert ks[0][0] == 'w' && ks[1][0] == 'p' && ks[2][0] == 'm'; }
    CopyFields(m, ks);
  }

  /** The dict `{k: rec.get(k) for k in ks}`. */
  function CopyOf(m: seq<(string, Json)>, ks: seq<string>): (c: seq<(string, Json)>)
    ensures |c| == |ks| && forall i :: 0 <= i < |ks| ==> c[i] == (ks[i], Get(m, ks[i]))
  {
    seq(|ks|, i requires 0 <= i < |ks| => (ks[i], Get(m, ks[i])))
  }

  /** A copy under distinct keys has those keys, in order, each bound to the value it was copied from. */
  lemma CopyFields(m: seq<(string, Json)>, ks: seq<string>)
    requires Distinct(ks)
    ensures var c := CopyOf(m, ks);
            && Keys(c) == ks
            && forall k :: k in Keys(c) ==> Lookup(c, k) == Some(Get(m, k))
  {
    var c := CopyOf(m, ks);
    assert forall i :: 0 <= i < |ks| ==> Keys(c)[i] == ks[i];
    LookupDistinct(c);
    forall k | k in Keys(c) ensures Lookup(c, k) == Some(Get(m, k)) {
      var i :| 0 <= i < |ks| && ks[i] == k;
      assert c[i].0 == k;
    }
  }

  /**
   * provenance is a one-entry list: provider "discovery", the raw `provider`
   * (default "unknown") as place id, and the raw record's keys, in order, as fields.
   */
  lemma NormalizeRecordProvenance(m: seq<(string, Json)>, id: string, today: Date)
    requires RawName(m).JStr?
    ensures var n := NormalizeRecord(JObj(m), id, today).value.members;
            var pv := Lookup(n, "provenance");
            && pv.Some? && pv.value.JArr? && |pv.value.items| == 1 && pv.value.items[0].JObj?
            && var e := pv.value.items[0].members;
            && Lookup(e, "provider") == Some(JStr("discovery"))
            && Lookup(e, "place_id") == Some(if "provider" in Keys(m) then Lookup(m, "provider").value else JStr("unknown"))
            && Lookup(e, "fields") == Some(JArr(StrList(Keys(m))))
  {
    NormalizeRecordKeys(m, id, today);
    var n := NormalizeRecord(JObj(m), id, today).value.members;
    LookupDistinct(n);
    assert Lookup(n, n[7].0) == Some(n[7].1);
    MakeProvFields("discovery", LookupOr(m, "provider", JStr("unknown")), Keys(m), today);
  }

  /** The slug is also the slug of the stripped name the record carries. */
  lemma SlugOfStrippedName(name: string)
    ensures Slugify(PyStrip(name), None) == Slugify(name, None)
  {
    NoNeighborhoodIsName(name);
    NoNeighborhoodIsName(PyStrip(name));
    TrimIdempotent(name, IsPySpace);
  }

  // ---------------------------------------------------------------------
  // The loop over the input lines

  /** `not line.strip()`: the lines the loop skips. */
  predicate IsBlank(line: string) {
    PyStrip(line) == []
  }

  /** The lines the loop does not skip, in order. */
  function NonBlank(lines: seq<string>): (r: seq<string>)
    ensures |r| <= |lines|
    ensures r == Seqs.Filter(lines, l => !IsBlank(l))
  {
    if lines == [] then []
    else
      var init, last := lines[..|lines| - 1], lines[|lines| - 1];
      Seqs.FilterAppend(init, last, l => !IsBlank(l));
      assert init + [last] == lines;
      NonBlank(init) + (if IsBlank(last) then [] else [last])
  }

  /** What one non-blank line becomes: `json.loads`, then the `normalized` dict. */
  function LineResult(line: string, parse: string -> Option<Json>, id: string, today: Date): Result<Json, Failure> {
    match parse(line)
    case None => Err(InvalidJson)
    case Some(rec) => NormalizeRecord(rec, id, today)
  }

  /** What the script leaves behind: the records written, and the exception that stopped it, if any. */
  datatype Outcome = Outcome(written: seq<Json>, failure: Option<Failure>)

  /**
   * One more line after the outcome so far. `convert(line, id)` is what a
   * non-blank line becomes (LineResult in the script); the k-th record written
   * gets the id `newId(k)`.
   */
  function Step(o: Outcome, line: string, convert: (string, string) -> Result<Json, Failure>, newId: nat -> string): Outcome {
    if o.failure.Some? || IsBlank(line) then o
    else match convert(line, newId(|o.written|))
      case Err(e) => Outcome(o.written, Some(e))
      case Ok(r) => Outcome(o.written + [r], None)
  }

  /** The outcome of the loop over `lines`. */
  function Run(lines: seq<string>, convert: (string, string) -> Result<Json, Failure>, newId: nat -> string): Outcome {
    if lines == [] then Outcome([], None)
    else Step(Run(lines[..|lines| - 1], convert, newId), lines[|lines| - 1], convert, newId)
  }

  /** Once a line has raised, later lines change nothing. */
  lemma {:induction false} FailureSticks(lines: seq<string>, k: nat, convert: (string, string) -> Result<Json, Failure>, newId: nat -> string)
    requires k <= |lines| && Run(lines[..k], convert, newId).failure.Some?
    ensures Run(lines, convert, newId) == Run(lines[..k], convert, newId)
    decreases |lines| - k
  {
    if k < |lines| {
      assert lines[..k + 1][..k] == lines[..k];
      FailureSticks(lines, k + 1, convert, newId);
    } else {
      assert lines[..k] == lines;
    }
  }

  /** The loop of `main`: skip blank lines, convert and write every other one, stop at the first exception. */
  method NormalizeLines(lines: seq<string>, convert: (string, string) -> Result<Json, Failure>, newId: nat -> string)
    returns (written: seq<Json>, failure: Option<Failure>)
    ensures Outcome(written, failure) == Run(lines, convert, newId)
  {
    written := [];
    failure := None;
    var i := 0;
    while i < |lines|
      invariant 0 <= i <= |lines|
      invariant Run(lines[..i], convert, newId) == Outcome(written, None)
    {
      var line := lines[i];
      assert lines[..i + 1][..i] == lines[..i];
      if PyStrip(line) != [] {
        var r := convert(line, newId(|written|));
        if r.Err? {
          failure := Some(r.error);
          FailureSticks(lines, i + 1, convert, newId);
          return;
        }
        written := written + [r.value];
      }
      i := i + 1;
    }
    assert lines[..i] == lines;
  }

  /**
   * `main`: a missing input file leaves the output file as it was (absent, or
   * its old records); otherwise the output file holds exactly the records the
   * loop writes, each line parsed by `parse` and normalised on the day `today`.
   */
  method NormalizeMain(input: Option<seq<string>>, existing: Option<seq<Json>>,
                       parse: string -> Option<Json>, newId: nat -> string, today: Date)
    returns (output: Option<seq<Json>>, failure: Option<Failure>)
    ensures input.None? ==> output == existing && failure.None?
    ensures input.Some? ==>
              var o := Run(input.value, (line, id) => LineResult(line, parse, id, today), newId);
              output == Some(o.written) && failure == o.failure
  {
    if input.None? {
      return existing, None;
    }
    var written;
    written, failure := NormalizeLines(input.value, (line, id) => LineResult(line, parse, id, today), newId);
    output := Some(written);
  }

  /**
   * `o` is what the loop leaves after the non-blank lines `nb`: their conversions
   * written one per line and in order, the k-th with id `newId(k)`; without an
   * exception every line is written, and an exception is the one the next line
   * raises.
   */
  predicate Explains(o: Outcome, nb: seq<string>, convert: (string, string) -> Result<Json, Failure>, newId: nat -> string) {
    && |o.written| <= |nb|
    && (forall j :: 0 <= j < |o.written| ==> convert(nb[j], newId(j)) == Ok(o.written[j]))
    && (o.failure.None? ==> |o.written| == |nb|)
    && (o.failure.Some? ==>
          && |o.written| < |nb|
          && convert(nb[|o.written|], newId(|o.written|)) == Err(o.failure.value))
  }

  lemma {:induction false} RunWritesNonBlankLines(lines: seq<string>, convert: (string, string) -> Result<Json, Failure>, newId: nat -> string)
    ensures Explains(Run(lines, convert, newId), NonBlank(lines), convert, newId)
  {
    if lines != [] {
      var init := lines[..|lines| - 1];
      RunWritesNonBlankLines(init, convert, newId);
      StepExplains(Run(init, convert, newId), NonBlank(init), lines[|lines| - 1], convert, newId);
    }
  }

  lemma StepExplains(p: Outcome, nbp: seq<string>, last: string, convert: (string, string) -> Result<Json, Failure>, newId: nat -> string)
    requires Explains(p, nbp, convert, newId)
    ensures Explains(Step(p, last, convert, newId), nbp + (if IsBlank(last) then [] else [last]), convert, newId)
  {
    var nb := nbp + (if IsBlank(last) then [] else [last]);
    if IsBlank(last) {
      assert nb == nbp;
    } else {
      assert forall j :: 0 <= j < |nbp| ==> nb[j] == nbp[j];
      assert nb[|nbp|] == last;
    }
  }

  /** Blank lines make no difference: the outcome is that of the non-blank lines alone. */
  lemma {:induction false} BlankLinesIgnored(lines: seq<string>, convert: (string, string) -> Result<Json, Failure>, newId: nat -> string)
    ensures Run(lines, convert, newId) == Run(NonBlank(lines), convert, newId)
  {
    if lines != [] {
      var init := lines[..|lines| - 1];
      var last := lines[|lines| - 1];
      BlankLinesIgnored(init, convert, newId);
      var nbp := NonBlank(init);
      assert Run(lines, convert, newId) == Step(Run(nbp, convert, newId), last, convert, newId);
      if IsBlank(last) {
        assert NonBlank(lines) == nbp;
      } else {
        var nb := nbp + [last];
        assert NonBlank(lines) == nb;
        assert nb[..|nb| - 1] == nbp && nb[|nb| - 1] == last;
        assert Run(nb, convert, newId) == Step(Run(nbp, convert, newId), last, convert, newId);
      }
    }
  }
}
