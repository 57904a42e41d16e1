/** Which records carry which date, in terms of their keys and JSON values. */
module ProgressLaws {
  import opened Prelude
  import opened Ordering
  import opened SyncTypes
  import opened Tables
  import opened Progress

  // ----- keys -----

  predicate NoSlash(s: string) {
    forall i :: 0 <= i < |s| ==> s[i] != '/'
  }

  ghost predicate Parts(parts: seq<string>) {
    parts != [] && forall i :: 0 <= i < |parts| ==> NoSlash(parts[i])
  }

  function JoinSlash(parts: seq<string>): string
    requires parts != []
  {
    if |parts| == 1 then parts[0] else parts[0] + "/" + JoinSlash(parts[1..])
  }

  lemma {:induction false} SplitOnce(s: string, t: string)
    requires NoSlash(s)
    ensures Split(s + "/" + t) == [s] + Split(t)
  {
    if s == "" {
      assert s + "/" + t == "/" + t;
      assert ("/" + t)[1..] == t;
    } else {
      assert (s + "/" + t)[1..] == s[1..] + "/" + t;
      SplitOnce(s[1..], t);
      assert s == [s[0]] + s[1..];
    }
  }

  lemma {:induction false} SplitNone(s: string)
    requires NoSlash(s)
    ensures Split(s) == [s]
  {
    if s != "" {
      SplitNone(s[1..]);
      assert s == [s[0]] + s[1..];
    }
  }

  /** Splitting undoes joining. */
  lemma {:induction false} SplitJoined(parts: seq<string>)
    requires Parts(parts)
    ensures Split(JoinSlash(parts)) == parts
  {
    assert NoSlash(parts[0]);
    if |parts| == 1 {
      SplitNone(parts[0]);
    } else {
      assert Parts(parts[1..]) by { assert forall i :: 0 <= i < |parts[1..]| ==> parts[1..][i] == parts[i + 1]; }
      SplitJoined(parts[1..]);
      SplitOnce(parts[0], JoinSlash(parts[1..]));
    }
  }

  /** Joining undoes splitting, and no part holds a slash. */
  lemma {:induction false} JoinSplit(s: string)
    ensures Parts(Split(s)) && JoinSlash(Split(s)) == s
  {
    if s != "" {
      JoinSplit(s[1..]);
      var rest := Split(s[1..]);
      if s[0] == '/' {
        assert ([""] + rest)[1..] == rest;
        assert s == "/" + s[1..];
      } else {
        var parts := [[s[0]] + rest[0]] + rest[1..];
        assert parts[1..] == rest[1..];
        assert NoSlash(parts[0]) by { assert NoSlash(rest[0]); }
        forall i | 0 < i < |parts| ensures NoSlash(parts[i]) { assert parts[i] == rest[i]; }
        assert s == [s[0]] + s[1..];
        if |rest| == 1 { assert JoinSlash(parts) == s; }
              else { assert JoinSlash(rest) == rest[0] + "/" + JoinSlash(rest[1..]); }
      }
    }
  }

  /** The segments after the first two parts of a key, percent-decoded. */
  ghost predicate Segments(codec: Codec, key: string, segments: seq<string>) {
    exists parts :: SegmentsOf(codec, key, parts, segments)
  }

  ghost predicate SegmentsOf(codec: Codec, key: string, parts: seq<string>, segments: seq<string>) {
    && Parts(parts) && |parts| == |segments| + 2 && JoinSlash(parts) == key
    && forall i :: 0 <= i < |segments| ==> codec.unescape(parts[i + 2]) == Some(segments[i])
  }

  lemma {:induction false} UnescapeMeaning(codec: Codec, parts: seq<string>)
    ensures UnescapeAll(codec, parts).Ok? <==> forall i :: 0 <= i < |parts| ==> codec.unescape(parts[i]).Some?
    ensures UnescapeAll(codec, parts).Ok? ==>
              forall i :: 0 <= i < |parts| ==> codec.unescape(parts[i]) == Some(UnescapeAll(codec, parts).value[i])
  {
    if parts != [] {
      UnescapeMeaning(codec, parts[1..]);
      assert forall i :: 0 <= i < |parts[1..]| ==> parts[1..][i] == parts[i + 1];
      assert forall i :: 0 < i < |parts| ==> parts[i] == parts[1..][i - 1];
    }
  }

  // ----- JSON values -----

  /** Only null, false, zero and the empty string are falsy. */
  lemma FalsyValues(v: Json)
    ensures !JsTruthy(v) <==> v == Null || v == Bool(false) || v == Text("") || (v.Number? && v.isZero)
  {}

  /** The text of a value; an array's is that of its items with commas between them. */
  lemma TextOfValues(xs: seq<Json>, ys: seq<Json>, v: Json)
    ensures v.Null? ==> JsString(v) == ""
    ensures v.Bool? ==> JsString(v) == if v.value then "true" else "false"
    ensures v.Number? ==> JsString(v) == v.text
    ensures v.Text? ==> JsString(v) == v.s
    ensures v.Object? ==> JsString(v) == "[object Object]"
    ensures JsString(Array([])) == "" && JsString(Array([v])) == JsString(v)
    ensures xs != [] && ys != [] ==> JsString(Array(xs + ys)) == JsString(Array(xs)) + "," + JsString(Array(ys))
  {
    if xs != [] && ys != [] { JoinedItems(xs, ys); }
  }

  lemma {:induction false} JoinedItems(xs: seq<Json>, ys: seq<Json>)
    requires xs != [] && ys != []
    ensures JoinItems(xs + ys) == JoinItems(xs) + "," + JoinItems(ys)
    decreases |xs|
  {
    assert (xs + ys)[1..] == xs[1..] + ys;
    if |xs| == 1 {
      assert xs[1..] + ys == ys;
    } else {
      JoinedItems(xs[1..], ys);
    }
  }

  const WHITE_SPACE := {
    9, 10, 11, 12, 13, 0x20, 0x85, 0xA0, 0x1680,
    0x2000, 0x2001, 0x2002, 0x2003, 0x2004, 0x2005, 0x2006, 0x2007, 0x2008, 0x2009, 0x200A,
    0x2028, 0x2029, 0x202F, 0x205F, 0x3000
  }

  /** What strings.TrimSpace removes is Unicode White_Space. */
  lemma BlankStrings(s: string)
    ensures Blank(s) <==> forall i :: 0 <= i < |s| ==> s[i] as int in WHITE_SPACE
  {}

  /** The text of a field of an object; a missing field, or a field of anything else, has none. */
  function FieldText(v: Json, name: string): string {
    if v.Object? && name in v.fields then JsString(v.fields[name]) else ""
  }

  predicate FieldTruthy(v: Json, name: string) {
    v.Object? && name in v.fields && JsTruthy(v.fields[name])
  }

  // ----- dates -----

  /** A day record that says something about its day. */
  predicate SaysSomething(kind: string, json: Option<Json>) {
    || (kind == "journal" && json.Some? && !Blank(JsString(json.value)))
    || (kind == "goals" && json.Some? && FieldTruthy(json.value, "lockedAt"))
    || (kind == "blessing" && json.Some? && FieldTruthy(json.value, "liked"))
    || (kind == "item" && (json.None? || !Blank(FieldText(json.value, "input"))
                           || FieldText(json.value, "status") != "pending"))
  }

  /** The date of a live record with these segments; empty when it has none. */
  function DateIn(segments: seq<string>, json: Option<Json>): string {
    if segments == [] then ""
    else if segments[0] == "day" then
      if |segments| >= 3 && SaysSomething(segments[2], json) then segments[1] else ""
    else if segments[0] == "quote" && json.Some? then FieldText(json.value, "date")
    else if segments[0] == "raffle" && json.Some? then
      var drawn := FieldText(json.value, "drawDate");
      if drawn != "" then drawn else FieldText(json.value, "date")
    else ""
  }

  predicate SegmentsCarry(segments: seq<string>, json: Option<Json>, date: string) {
    date != "" && date == DateIn(segments, json)
  }

  ghost predicate Carries(codec: Codec, c: Change, date: string) {
    && !c.deleted
    && exists segments ::
         Segments(codec, c.entityKey, segments) && SegmentsCarry(segments, codec.parse(c.valueJson), date)
  }

  /** A deleted record is not looked at, and a key of fewer than three parts has no segments to decode. */
  ghost predicate Decodes(codec: Codec, c: Change) {
    || c.deleted
    || (exists segments :: Segments(codec, c.entityKey, segments))
    || (exists first :: NoSlash(first) && c.entityKey == first)
  }

  lemma SegmentsAreDecoded(codec: Codec, key: string, segments: seq<string>)
    ensures Segments(codec, key, segments) <==>
              |Split(key)| >= 2 && UnescapeAll(codec, Split(key)[2..]) == Ok(segments)
  {
    var parts := Split(key);
    JoinSplit(key);
    if |parts| >= 2 {
      UnescapeMeaning(codec, parts[2..]);
      if UnescapeAll(codec, parts[2..]) == Ok(segments) {
        hide UnescapeAll, Split, JoinSlash;
        forall i | 0 <= i < |segments| ensures codec.unescape(parts[i + 2]) == Some(segments[i]) {
          assert parts[2..][i] == parts[i + 2];
        }
        assert SegmentsOf(codec, key, parts, segments);
      }
    }
    if Segments(codec, key, segments) {
      var other :| SegmentsOf(codec, key, other, segments);
      SplitJoined(other);
      hide Split, JoinSlash;
      UnescapeMeaning(codec, other[2..]);
      forall i | 0 <= i < |segments|
        ensures codec.unescape(other[2..][i]) == Some(segments[i])
      {
        assert other[2..][i] == other[i + 2];
      }
      assert UnescapeAll(codec, other[2..]).value == segments;
    }
  }

  lemma DateOfSegments(codec: Codec, c: Change, segments: seq<string>)
    requires !c.deleted && |Split(c.entityKey)| >= 3 && UnescapeAll(codec, Split(c.entityKey)[2..]) == Ok(segments)
    ensures RecordDate(codec, c).Ok?
    ensures forall date :: RecordDate(codec, c) == Ok(Some(date))
              <==> SegmentsCarry(segments, codec.parse(c.valueJson), date)
  {
    hide Split, UnescapeAll, Blank, JsTruthy, JsString;
    NullTexts();
  }

  lemma NullTexts()
    ensures JsString(Null) == "" && Blank("") && !JsTruthy(Null)
  {}

  /** What a record contributes, and when its key stops the derivation. */
  lemma RecordDateMeaning(codec: Codec, c: Change)
    ensures RecordDate(codec, c).Ok? <==> Decodes(codec, c)
    ensures forall date :: RecordDate(codec, c) == Ok(Some(date)) <==> Carries(codec, c, date)
  {
    hide RecordDate, Split, UnescapeAll, JoinSlash, SegmentsCarry, Segments;
    var parts := Split(c.entityKey);
    JoinSplit(c.entityKey);
    forall segments ensures Segments(codec, c.entityKey, segments) <==>
                              |parts| >= 2 && UnescapeAll(codec, parts[2..]) == Ok(segments)
    {
      SegmentsAreDecoded(codec, c.entityKey, segments);
    }
    if c.deleted || |parts| < 3 {
      NoDate(codec, c);
      EmptyCarriesNothing(codec.parse(c.valueJson));
      if |parts| == 1 { OnePart(c.entityKey); }
      if |parts| == 2 { NoneToUnescape(codec, parts[2..]); }
    } else {
      forall first | NoSlash(first) ensures c.entityKey != first {
        SplitNone(first);
      }
      var decoded := UnescapeAll(codec, parts[2..]);
      if decoded.Ok? { DateOfSegments(codec, c, decoded.value); } else { DecodeFails(codec, c); }
    }
  }

  lemma NoDate(codec: Codec, c: Change)
    requires c.deleted || |Split(c.entityKey)| < 3
    ensures RecordDate(codec, c) == Ok(None)
  {
    hide Split;
  }

  lemma DecodeFails(codec: Codec, c: Change)
    requires !c.deleted && |Split(c.entityKey)| >= 3 && UnescapeAll(codec, Split(c.entityKey)[2..]).Err?
    ensures RecordDate(codec, c).Err?
  {
    hide Split, UnescapeAll;
  }

  lemma OnePart(key: string)
    requires |Split(key)| == 1
    ensures NoSlash(key)
  {
    JoinSplit(key);
    hide Split;
  }

  lemma NoneToUnescape(codec: Codec, parts: seq<string>)
    requires parts == []
    ensures UnescapeAll(codec, parts) == Ok([])
  {}

  lemma EmptyCarriesNothing(json: Option<Json>)
    ensures forall date :: !SegmentsCarry([], json, date)
  {}

  ghost predicate CarriedBy(codec: Codec, rows: seq<Change>, date: string) {
    exists i :: 0 <= i < |rows| && Carries(codec, rows[i], date)
  }

  /**
   * The progress day of the record rows: it exists iff every live key decodes; it is then the greatest date
   * that any record carries, or the first day of the campaign when none does.
   */
  lemma ProgressDayLaw(codec: Codec, rows: seq<Change>)
    ensures ProgressDay(codec, rows).Ok? <==> forall i :: 0 <= i < |rows| ==> Decodes(codec, rows[i])
    ensures ProgressDay(codec, rows).Ok? ==>
              var day := ProgressDay(codec, rows).value;
              if exists date :: CarriedBy(codec, rows, date)
              then CarriedBy(codec, rows, day) && forall d :: CarriedBy(codec, rows, d) ==> d == day || Below(d, day)
              else day == "2026-07-13"
  {
    hide RecordDate, Carries, Decodes, ProgressDay, Below;
    ProgressDayMeaning(codec, rows);
    forall i | 0 <= i < |rows|
      ensures RecordDate(codec, rows[i]).Ok? <==> Decodes(codec, rows[i])
      ensures forall d :: RecordDate(codec, rows[i]) == Ok(Some(d)) <==> Carries(codec, rows[i], d)
    {
      RecordDateMeaning(codec, rows[i]);
    }
    forall d ensures Dated(codec, rows, d) <==> CarriedBy(codec, rows, d) {}
    hide Dated, CarriedBy;
  }

  // ----- the records one by one -----

  /** The segments of a key are unique. */
  lemma OneDecoding(codec: Codec, key: string, xs: seq<string>, ys: seq<string>)
    requires Segments(codec, key, xs) && Segments(codec, key, ys)
    ensures xs == ys
  {
    hide Segments, Split, UnescapeAll;
    SegmentsAreDecoded(codec, key, xs);
    SegmentsAreDecoded(codec, key, ys);
  }

  /** Alone in the record table, a live record gives its date as the progress day, if it has one. */
  lemma DayOfRecord(codec: Codec, c: Change, segments: seq<string>)
    requires !c.deleted && Segments(codec, c.entityKey, segments)
    ensures ProgressDay(codec, [c]) ==
            var date := DateIn(segments, codec.parse(c.valueJson));
            Ok(if date != "" then date else "2026-07-13")
  {
    hide Segments, ProgressDay, DateIn, Below;
    ProgressDayLaw(codec, [c]);
    assert Decodes(codec, [c][0]);
    forall date ensures CarriedBy(codec, [c], date) <==> SegmentsCarry(segments, codec.parse(c.valueJson), date) {
      assert [c][0] == c;
      if Carries(codec, c, date) {
        var other :| Segments(codec, c.entityKey, other) && SegmentsCarry(other, codec.parse(c.valueJson), date);
        OneDecoding(codec, c.entityKey, segments, other);
      }
      if SegmentsCarry(segments, codec.parse(c.valueJson), date) { assert Carries(codec, [c][0], date); }
    }
    hide Carries, Decodes, CarriedBy;
    var date := DateIn(segments, codec.parse(c.valueJson));
    assert date != "" ==> CarriedBy(codec, [c], date);
  }
}
