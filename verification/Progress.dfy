/** The progress day cached in a lineage: the greatest date among the live records. */
module Progress {
  import opened Prelude
  import opened Ordering
  import opened SyncTypes

  const CAMPAIGN_START := "2026-07-13"

  /** A decoded JSON value; Null is also the value of invalid JSON and of a missing field. */
  datatype Json =
    | Null
    | Bool(value: bool)
    | Number(isZero: bool, text: string)  // text is the number as fmt's %v prints it
    | Text(s: string)
    | Array(items: seq<Json>)
    | Object(fields: map<string, Json>)

  /** The two library decoders, left uninterpreted: url.PathUnescape and json.Unmarshal. */
  datatype Codec = Codec(unescape: string -> Option<string>, parse: seq<Byte> -> Option<Json>)

  function JsString(v: Json): string
    decreases v, 1
  {
    match v
    case Null => ""
    case Bool(b) => if b then "true" else "false"
    case Number(_, text) => text
    case Text(s) => s
    case Array(items) => JoinItems(items)
    case Object(_) => "[object Object]"
  }

  function JoinItems(items: seq<Json>): string
    decreases items, 0
  {
    if |items| == 0 then ""
    else if |items| == 1 then JsString(items[0])
    else JsString(items[0]) + "," + JoinItems(items[1..])
  }

  predicate JsTruthy(v: Json) {
    match v
    case Null => false
    case Bool(b) => b
    case Number(isZero, _) => !isZero
    case Text(s) => s != ""
    case Array(_) => true
    case Object(_) => true
  }

  function ObjectValue(v: Json, key: string): Json {
    if v.Object? && key in v.fields then v.fields[key] else Null
  }

  function ObjectString(v: Json, key: string): string {
    JsString(ObjectValue(v, key))
  }

  predicate IsSpace(c: char) {
    var code := c as int;
    9 <= code <= 13 || code == 0x20 || code == 0x85 || code == 0xA0 || code == 0x1680
    || 0x2000 <= code <= 0x200A || code == 0x2028 || code == 0x2029 || code == 0x202F
    || code == 0x205F || code == 0x3000
  }

  /** strings.TrimSpace(s) == "" */
  predicate Blank(s: string) {
    forall i :: 0 <= i < |s| ==> IsSpace(s[i])
  }

  predicate MeaningfulDayRecord(kind: string, value: Json, validJson: bool) {
    if kind == "journal" then !Blank(JsString(value))
    else if kind == "goals" then JsTruthy(ObjectValue(value, "lockedAt"))
    else if kind == "blessing" then JsTruthy(ObjectValue(value, "liked"))
    else if kind == "item" then
      !Blank(ObjectString(value, "input")) || !validJson || ObjectString(value, "status") != "pending"
    else false
  }

  function Split(s: string): (parts: seq<string>)
    ensures parts != []
  {
    if s == "" then [""]
    else
      var rest := Split(s[1..]);
      if s[0] == '/' then [""] + rest else [[s[0]] + rest[0]] + rest[1..]
  }

  function UnescapeAll(codec: Codec, parts: seq<string>): (r: Result<seq<string>>)
    ensures r.Ok? ==> |r.value| == |parts|
  {
    if parts == [] then Ok([])
    else
      var first := codec.unescape(parts[0]);
      if first.None? then Err(BadPercentEncoding)
      else
        var rest :- UnescapeAll(codec, parts[1..]);
        Ok([first.value] + rest)
  }

  function NonEmpty(date: string): Option<string> {
    if date != "" then Some(date) else None
  }

  /** The date one record contributes, if any. */
  function RecordDate(codec: Codec, record: Change): Result<Option<string>> {
    var parts := Split(record.entityKey);
    if record.deleted || |parts| < 3 then Ok(None)
    else
      var segments :- UnescapeAll(codec, parts[2..]);
      var parsed := codec.parse(record.valueJson);
      var value := if parsed.Some? then parsed.value else Null;
      if |segments| >= 3 && segments[0] == "day" && segments[1] != "" then
        Ok(if MeaningfulDayRecord(segments[2], value, parsed.Some?) then Some(segments[1]) else None)
      else if segments[0] == "quote" then
        Ok(NonEmpty(ObjectString(value, "date")))
      else if segments[0] == "raffle" then
        var drawDate := ObjectString(value, "drawDate");
        Ok(NonEmpty(if drawDate == "" then ObjectString(value, "date") else drawDate))
      else
        Ok(None)
  }

  /** The dates of the records in order, or the first decoding error. */
  function Dates(codec: Codec, records: seq<Change>): Result<seq<string>> {
    if records == [] then Ok([])
    else
      var before :- Dates(codec, records[..|records| - 1]);
      var date :- RecordDate(codec, records[|records| - 1]);
      Ok(if date.Some? then before + [date.value] else before)
  }

  function Insert(s: string, sorted: seq<string>): (r: seq<string>)
    requires forall i, j :: 0 <= i < j < |sorted| ==> AtMost(sorted[i], sorted[j])
    ensures forall i, j :: 0 <= i < j < |r| ==> AtMost(r[i], r[j])
    ensures multiset(r) == multiset(sorted) + multiset{s}
  {
    if sorted == [] then [s]
    else
      assert sorted == [sorted[0]] + sorted[1..];
      if AtMost(s, sorted[0]) then
        assert forall j :: 0 <= j < |sorted| ==> AtMost(s, sorted[j]) by {
          forall j | 0 <= j < |sorted| ensures AtMost(s, sorted[j]) {
            if j > 0 {
              assert AtMost(sorted[0], sorted[j]);
              AtMostTransitive(s, sorted[0], sorted[j]);
            }
          }
        }
        [s] + sorted
      else
        var rest := Insert(s, sorted[1..]);
        BelowTotal(s, sorted[0]);
        assert forall j :: 0 <= j < |rest| ==> AtMost(sorted[0], rest[j]) by {
          forall j | 0 <= j < |rest| ensures AtMost(sorted[0], rest[j]) {
            assert rest[j] in multiset(rest);
            assert rest[j] in sorted[1..] || rest[j] == s;
          }
        }
        [sorted[0]] + rest
  }

  /** sort.Strings */
  function SortStrings(ss: seq<string>): (r: seq<string>)
    ensures forall i, j :: 0 <= i < j < |r| ==> AtMost(r[i], r[j])
    ensures multiset(r) == multiset(ss)
  {
    if ss == [] then []
    else
      assert ss == ss[..|ss| - 1] + [ss[|ss| - 1]];
      Insert(ss[|ss| - 1], SortStrings(ss[..|ss| - 1]))
  }

  /** The last of the sorted dates, or the campaign start when there is none. */
  function LastDate(dates: seq<string>): string {
    if dates == [] then CAMPAIGN_START
    else
      var sorted := SortStrings(dates);
      assert |sorted| == |multiset(sorted)| == |multiset(dates)| == |dates|;
      sorted[|sorted| - 1]
  }

  function ProgressDay(codec: Codec, records: seq<Change>): Result<string> {
    var dates :- Dates(codec, records);
    Ok(LastDate(dates))
  }

  lemma LastDateIsGreatest(dates: seq<string>)
    requires dates != []
    ensures LastDate(dates) in dates
    ensures forall d :: d in dates ==> AtMost(d, LastDate(dates))
  {
    var sorted := SortStrings(dates);
    assert |sorted| == |multiset(sorted)| == |multiset(dates)| == |dates|;
    assert LastDate(dates) in multiset(sorted);
    forall d | d in dates ensures AtMost(d, LastDate(dates)) {
      assert d in multiset(dates) && d in multiset(sorted);
      var i :| 0 <= i < |sorted| && sorted[i] == d;
    }
  }

  /** Some record carries the date. */
  ghost predicate Dated(codec: Codec, records: seq<Change>, d: string) {
    exists i :: 0 <= i < |records| && RecordDate(codec, records[i]) == Ok(Some(d))
  }

  ghost predicate AllDecode(codec: Codec, records: seq<Change>) {
    forall i :: 0 <= i < |records| ==> RecordDate(codec, records[i]).Ok?
  }

  lemma DatedSplit(codec: Codec, records: seq<Change>, d: string)
    requires records != []
    ensures var init, last := records[..|records| - 1], records[|records| - 1];
            && (Dated(codec, records, d) <==> Dated(codec, init, d) || RecordDate(codec, last) == Ok(Some(d)))
            && (AllDecode(codec, records) <==> AllDecode(codec, init) && RecordDate(codec, last).Ok?)
  {
    hide RecordDate;
    var init := records[..|records| - 1];
    assert forall i :: 0 <= i < |init| ==> records[i] == init[i];
    if Dated(codec, init, d) {
      var i :| 0 <= i < |init| && RecordDate(codec, init[i]) == Ok(Some(d));
      assert RecordDate(codec, records[i]) == Ok(Some(d));
    }
    if AllDecode(codec, records) {
      forall i | 0 <= i < |init| ensures RecordDate(codec, init[i]).Ok? { assert RecordDate(codec, records[i]).Ok?; }
    }
  }

  lemma {:induction false} DatesMeaning(codec: Codec, records: seq<Change>, d: string)
    ensures Dates(codec, records).Ok? <==> AllDecode(codec, records)
    ensures Dates(codec, records).Ok? ==> (d in Dates(codec, records).value <==> Dated(codec, records, d))
  {
    hide RecordDate;
    if records != [] {
      DatesMeaning(codec, records[..|records| - 1], d);
      DatedSplit(codec, records, d);
      hide Dated, AllDecode;
    }
  }

  /**
   * The derived day exists iff every live key decodes; it is then the campaign start when no record
   * carries a date, and otherwise the greatest date any record carries.
   */
  lemma ProgressDayMeaning(codec: Codec, records: seq<Change>)
    ensures ProgressDay(codec, records).Ok? <==> AllDecode(codec, records)
    ensures ProgressDay(codec, records).Ok? ==>
              var day := ProgressDay(codec, records).value;
              if exists d :: Dated(codec, records, d)
              then Dated(codec, records, day) && forall d :: Dated(codec, records, d) ==> AtMost(d, day)
              else day == CAMPAIGN_START
  {
    hide Dated, AllDecode;
    DatesMeaning(codec, records, "");
    if Dates(codec, records).Ok? {
      var dates := Dates(codec, records).value;
      hide Dates;
      forall d ensures d in dates <==> Dated(codec, records, d) { DatesMeaning(codec, records, d); }
      hide LastDate;
      if dates != [] {
        LastDateIsGreatest(dates);
        assert dates[0] in dates;
      } else {
        NoDates();
      }
    }
  }

  lemma NoDates()
    ensures LastDate([]) == CAMPAIGN_START
  {}

  lemma {:induction false} DatesError(codec: Codec, records: seq<Change>, i: nat)
    requires i <= |records| && Dates(codec, records[..i]).Err?
    ensures Dates(codec, records) == Dates(codec, records[..i])
    decreases |records| - i
  {
    if i < |records| {
      assert records[..i + 1][..i] == records[..i];
      DatesError(codec, records, i + 1);
    } else {
      assert records[..i] == records;
    }
  }

  /** The loop over the records, appending dates, then sorting them and taking the last. */
  method DeriveProgressDay(codec: Codec, records: seq<Change>) returns (day: Result<string>)
    ensures day == ProgressDay(codec, records)
  {
    var dates: seq<string> := [];
    for i := 0 to |records|
      invariant Dates(codec, records[..i]) == Ok(dates)
    {
      assert records[..i + 1][..i] == records[..i];
      var date := RecordDate(codec, records[i]);
      if date.Err? {
        DatesError(codec, records, i + 1);
        return Err(date.error);
      }
      if date.value.Some? {
        dates := dates + [date.value.value];
      }
    }
    assert records[..|records|] == records;
    if |dates| == 0 { return Ok(CAMPAIGN_START); }
    var sorted := SortStrings(dates);
    assert |sorted| == |multiset(sorted)| == |multiset(dates)| == |dates|;
    return Ok(sorted[|sorted| - 1]);
  }
}
