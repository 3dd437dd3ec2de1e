/**
 * The browser's CSV download: `exportToCSV` turns a list of records into CSV
 * text (the keys of the first record are the header; a string holding a comma
 * or a double quote is quoted, with its quotes doubled), and
 * `exportWorkoutsToCSV` builds one record per logged set of the workouts it is
 * given.
 *
 * A record is a sequence of fields in key order.  A numeric value is kept in
 * hundredths and rendered as `String(n)` renders it; a key the record lacks
 * reads as `undefined`, which `join` renders as the empty string.  The
 * download itself (the blob, the link and the click) is not modelled: the
 * result is the text the file would hold.
 */
module ClientCsv {
  import opened Wrappers
  import opened Schema
  import Seqs
  import Text
  import Routes

  /**
   * A value of a record: a string, a number (in hundredths), a date string
   * `YYYY-MM-DD` (kept as the day it names) or a missing key.
   */
  datatype Value = Str(s: string) | Num(hundredths: int) | Day(day: int) | Absent

  datatype Field = Field(key: string, value: Value)

  type Record = seq<Field>

  /** `Object.keys(record)`. */
  function Keys(r: Record): (ks: seq<string>)
    ensures |ks| == |r| && forall i :: 0 <= i < |r| ==> ks[i] == r[i].key
  {
    seq(|r|, i requires 0 <= i < |r| => r[i].key)
  }

  /** `record[key]`: the value of the first field with that key, `Absent` when there is none. */
  function Lookup(r: Record, key: string): Value
  {
    if r == [] then Absent else if r[0].key == key then r[0].value else Lookup(r[1..], key)
  }

  /** The value looked up is the first field's with that key, or `Absent` when no field has it. */
  lemma {:induction false} LookupFirst(r: Record, key: string)
    ensures (forall j :: 0 <= j < |r| ==> r[j].key != key) ==> Lookup(r, key) == Absent
    ensures (exists j :: 0 <= j < |r| && r[j].key == key) ==>
      exists j :: 0 <= j < |r| && r[j].key == key && r[j].value == Lookup(r, key) && forall k :: 0 <= k < j ==> r[k].key != key
  {
    if r != [] && r[0].key != key {
      LookupFirst(r[1..], key);
      assert forall j :: 1 <= j < |r| ==> r[j] == r[1..][j - 1];
      if exists j :: 0 <= j < |r| && r[j].key == key {
        var j :| 0 <= j < |r| && r[j].key == key;
        assert r[1..][j - 1].key == key;
        var j' :| 0 <= j' < |r| - 1 && r[1..][j'].key == key && r[1..][j'].value == Lookup(r, key)
          && forall k :: 0 <= k < j' ==> r[1..][k].key != key;
        assert r[j' + 1].key == key && r[j' + 1].value == Lookup(r, key);
      }
    }
  }

  /** A value looked up is `Absent` or the value of one of the fields. */
  lemma LookupIn(r: Record, key: string)
    ensures Lookup(r, key) == Absent || exists j :: 0 <= j < |r| && r[j].value == Lookup(r, key)
  {
    LookupFirst(r, key);
  }

  // ---------------------------------------------------------------------
  // Rendering

  predicate NeedsQuotes(s: string)
  {
    ',' in s || '"' in s
  }

  /** `s.replace(/"/g, '""')`. */
  function DoubleQuotes(s: string): string
  {
    if s == [] then [] else (if s[0] == '"' then "\"\"" else [s[0]]) + DoubleQuotes(s[1..])
  }

  /** A string with a comma or a quote, quoted with its quotes doubled; any other string as it is. */
  function Escape(s: string): string
  {
    if NeedsQuotes(s) then "\"" + DoubleQuotes(s) + "\"" else s
  }

  /** The text of a value before quoting: what `String(value)` and `join` make of it. */
  function Plain(v: Value): string
  {
    match v
    case Str(s) => s
    case Num(h) => Text.DecimalText(h)
    case Day(d) => Text.IsoDate(d)
    case Absent => ""
  }

  /** One cell: strings are escaped, numbers rendered, missing values left empty. */
  function Cell(v: Value): string
  {
    match v
    case Str(s) => Escape(s)
    case Num(h) => Text.DecimalText(h)
    case Day(d) => Text.IsoDate(d)
    case Absent => ""
  }

  function EscapeAll(ss: seq<string>): (r: seq<string>)
    ensures |r| == |ss| && forall i :: 0 <= i < |ss| ==> r[i] == Escape(ss[i])
  {
    seq(|ss|, i requires 0 <= i < |ss| => Escape(ss[i]))
  }

  /** The plain texts of a record under the given header, one per header key. */
  function Texts(r: Record, headers: seq<string>): (ts: seq<string>)
    ensures |ts| == |headers| && forall i :: 0 <= i < |headers| ==> ts[i] == Plain(Lookup(r, headers[i]))
  {
    seq(|headers|, i requires 0 <= i < |headers| => Plain(Lookup(r, headers[i])))
  }

  /** The line of one record: its cells in header order, joined by commas. */
  function Line(r: Record, headers: seq<string>): string
  {
    Seqs.Join(seq(|headers|, i requires 0 <= i < |headers| => Cell(Lookup(r, headers[i]))), ",")
  }

  /**
   * `exportToCSV`'s text: `None` (nothing is downloaded) for an empty list,
   * else the header line (the first record's keys, not escaped) and one line
   * per record, joined by newlines.
   */
  function ExportToCsv(data: seq<Record>): (r: Option<string>)
    ensures r.None? <==> data == []
  {
    if data == [] then None else Some(Seqs.Join(Lines(data), "\n"))
  }

  /** The header line, then one line per record. */
  function Lines(data: seq<Record>): (lines: seq<string>)
    requires data != []
    ensures |lines| == |data| + 1
  {
    var headers := Keys(data[0]);
    [Seqs.Join(headers, ",")] + seq(|data|, i requires 0 <= i < |data| => Line(data[i], headers))
  }

  // ---------------------------------------------------------------------
  // Reading the text back, the way a CSV reader does (RFC 4180 quoting)

  /**
   * The rest of a quoted field after its opening quote: the value, with each
   * `""` read as one quote, and what follows the closing quote.
   */
  function ReadQuoted(t: string): (r: (string, string))
    ensures |r.1| < |t| || t == []
  {
    if t == [] then ("", "")
    else if t[0] == '"' then
      if |t| > 1 && t[1] == '"' then
        var p := ReadQuoted(t[2..]);
        ("\"" + p.0, p.1)
      else ("", t[1..])
    else
      var p := ReadQuoted(t[1..]);
      ([t[0]] + p.0, p.1)
  }

  /** The fields of one line. */
  function ParseLine(line: string): seq<string>
    decreases |line|
  {
    if line != [] && line[0] == '"' then
      var p := ReadQuoted(line[1..]);
      if p.1 != [] && p.1[0] == ',' then [p.0] + ParseLine(p.1[1..]) else [p.0]
    else
      var i := Text.IndexOf(line, ',');
      if i < |line| then [line[..i]] + ParseLine(line[i + 1..]) else [line]
  }

  /** The lines of a text: `s.split("\n")`. */
  function SplitLines(s: string): seq<string>
    decreases |s|
  {
    var i := Text.IndexOf(s, '\n');
    if i < |s| then [s[..i]] + SplitLines(s[i + 1..]) else [s]
  }

  function ParseLines(lines: seq<string>): seq<seq<string>>
  {
    seq(|lines|, i requires 0 <= i < |lines| => ParseLine(lines[i]))
  }

  /** The fields of every line. */
  function ParseCsv(content: string): seq<seq<string>>
  {
    ParseLines(SplitLines(content))
  }

  /** Reading a quoted value back stops at its closing quote and returns the value. */
  lemma {:induction false} ReadQuotedEscaped(s: string, rest: string)
    requires rest == [] || rest[0] != '"'
    ensures ReadQuoted(DoubleQuotes(s) + "\"" + rest) == (s, rest)
    decreases |s|
  {
    var t := DoubleQuotes(s) + "\"" + rest;
    if s == [] {
      assert t == "\"" + rest;
    } else {
      ReadQuotedEscaped(s[1..], rest);
      var tail := DoubleQuotes(s[1..]) + "\"" + rest;
      if s[0] == '"' {
        assert t == "\"\"" + tail;
        assert t[2..] == tail;
      } else {
        assert t == [s[0]] + tail;
        assert t[1..] == tail;
      }
      assert s == [s[0]] + s[1..];
    }
  }

  /** A field that needs no quotes, followed by a comma or the end of the line, reads back as itself. */
  lemma ParsePlain(s: string, rest: string)
    requires ',' !in s && '"' !in s
    requires rest == [] || rest[0] == ','
    ensures ParseLine(s + rest) == [s] + (if rest == [] then [] else ParseLine(rest[1..]))
  {
    var line := s + rest;
    assert line == [] || line[0] != '"';
    Text.IndexOfPrefix(s, rest, ',');
    if rest == [] {
      assert line == s;
    } else {
      assert Text.IndexOf(line, ',') == |s|;
      assert line[..|s|] == s;
      assert line[|s| + 1..] == rest[1..];
    }
  }

  /** A quoted field followed by a comma or the end of the line reads back as the string. */
  lemma ParseQuotedField(s: string, rest: string)
    requires rest == [] || rest[0] == ','
    ensures ParseLine("\"" + DoubleQuotes(s) + "\"" + rest) == [s] + (if rest == [] then [] else ParseLine(rest[1..]))
  {
    var line := "\"" + DoubleQuotes(s) + "\"" + rest;
    assert line[1..] == DoubleQuotes(s) + "\"" + rest;
    ReadQuotedEscaped(s, rest);
  }

  /** An escaped field followed by a comma or the end of the line reads back as the string. */
  lemma ParseField(s: string, rest: string)
    requires rest == [] || rest[0] == ','
    ensures ParseLine(Escape(s) + rest) == [s] + (if rest == [] then [] else ParseLine(rest[1..]))
  {
    if NeedsQuotes(s) {
      ParseQuotedField(s, rest);
    } else {
      ParsePlain(s, rest);
    }
  }

  /** Escaping every string and joining them with commas gives a line that reads back as those strings. */
  lemma {:induction false} ParseJoined(values: seq<string>)
    requires values != []
    ensures ParseLine(Seqs.Join(EscapeAll(values), ",")) == values
    decreases |values|
  {
    var es := EscapeAll(values);
    if |values| == 1 {
      ParseField(values[0], "");
      assert Escape(values[0]) + "" == Escape(values[0]);
    } else {
      Seqs.JoinCons(es, ",");
      assert es[1..] == EscapeAll(values[1..]);
      var rest := "," + Seqs.Join(es[1..], ",");
      assert Seqs.Join(es, ",") == Escape(values[0]) + rest;
      ParseField(values[0], rest);
      assert rest[1..] == Seqs.Join(es[1..], ",");
      ParseJoined(values[1..]);
      assert values == [values[0]] + values[1..];
    }
  }

  /** Joining lines that hold no newline and splitting the result gives the lines back. */
  lemma {:induction false} SplitJoined(lines: seq<string>)
    requires lines != [] && forall i :: 0 <= i < |lines| ==> '\n' !in lines[i]
    ensures SplitLines(Seqs.Join(lines, "\n")) == lines
    decreases |lines|
  {
    if |lines| > 1 {
      Seqs.JoinCons(lines, "\n");
      SplitCons(lines[0], Seqs.Join(lines[1..], "\n"));
      SplitJoined(lines[1..]);
      assert lines == [lines[0]] + lines[1..];
    }
  }

  /** A first line without a newline splits off in front of the rest. */
  lemma SplitCons(first: string, rest: string)
    requires '\n' !in first
    ensures SplitLines(first + "\n" + rest) == [first] + SplitLines(rest)
  {
    var s := first + "\n" + rest;
    assert s == first + ("\n" + rest);
    Text.IndexOfPrefix(first, "\n" + rest, '\n');
    assert Text.IndexOf(s, '\n') == |first|;
    assert s[..|first|] == first;
    assert s[|first| + 1..] == rest;
  }

  lemma {:induction false} DoubleQuotesExcludes(s: string, c: char)
    requires c != '"' && c !in s
    ensures c !in DoubleQuotes(s)
    decreases |s|
  {
    if s != [] {
      DoubleQuotesExcludes(s[1..], c);
    }
  }

  /** A cell is the escaped plain text of its value (numbers and dates need no quotes). */
  lemma CellEscapes(v: Value)
    ensures Cell(v) == Escape(Plain(v))
  {
    if v.Num? {
      Text.DecimalTextNumeric(v.hundredths);
      Text.NotNumeric(Text.DecimalText(v.hundredths), ',');
      Text.NotNumeric(Text.DecimalText(v.hundredths), '"');
    } else if v.Day? {
      Text.IsoDateNumeric(v.day);
      Text.NotNumeric(Text.IsoDate(v.day), ',');
      Text.NotNumeric(Text.IsoDate(v.day), '"');
    }
  }

  /** A line reads back as the plain texts of the record under the header. */
  lemma LineRoundTrip(r: Record, headers: seq<string>)
    requires headers != []
    ensures ParseLine(Line(r, headers)) == Texts(r, headers)
  {
    var cells := seq(|headers|, i requires 0 <= i < |headers| => Cell(Lookup(r, headers[i])));
    forall i | 0 <= i < |headers|
      ensures cells[i] == Escape(Texts(r, headers)[i])
    {
      CellEscapes(Lookup(r, headers[i]));
    }
    assert cells == EscapeAll(Texts(r, headers));
    ParseJoined(Texts(r, headers));
  }

  /** A header key the record lacks gives an empty field. */
  lemma MissingKeyEmpty(r: Record, headers: seq<string>, i: nat)
    requires i < |headers| && headers[i] !in Keys(r)
    ensures Texts(r, headers)[i] == "" && Cell(Lookup(r, headers[i])) == ""
  {
    assert forall j :: 0 <= j < |r| ==> r[j].key != headers[i] by {
      forall j | 0 <= j < |r| ensures r[j].key != headers[i] {
        assert Keys(r)[j] == r[j].key;
      }
    }
    LookupFirst(r, headers[i]);
  }

  /** No string value of any record holds a newline. */
  ghost predicate NoNewlines(data: seq<Record>)
  {
    forall i :: 0 <= i < |data| ==> NoNewline(data[i])
  }

  /** No string value of the record holds a newline. */
  ghost predicate NoNewline(r: Record)
  {
    forall j :: 0 <= j < |r| && r[j].value.Str? ==> '\n' !in r[j].value.s
  }

  /** A line holds no newline when the record's strings hold none. */
  lemma LineExcludes(r: Record, headers: seq<string>)
    requires NoNewline(r)
    ensures '\n' !in Line(r, headers)
  {
    var cells := seq(|headers|, i requires 0 <= i < |headers| => Cell(Lookup(r, headers[i])));
    forall i | 0 <= i < |headers|
      ensures '\n' !in cells[i]
    {
      var v := Lookup(r, headers[i]);
      LookupIn(r, headers[i]);
      if v.Str? {
        DoubleQuotesExcludes(v.s, '\n');
      } else if v.Num? {
        Text.DecimalTextNumeric(v.hundredths);
        Text.NotNumeric(Text.DecimalText(v.hundredths), '\n');
      } else if v.Day? {
        Text.IsoDateNumeric(v.day);
        Text.NotNumeric(Text.IsoDate(v.day), '\n');
      }
    }
    Seqs.JoinExcludes(cells, ",", '\n');
  }

  /** What a reader should find in the exported text: the header, then each record's texts under it. */
  function Table(data: seq<Record>): seq<seq<string>>
    requires data != []
  {
    [Keys(data[0])] + seq(|data|, i requires 0 <= i < |data| => Texts(data[i], Keys(data[0])))
  }

  /**
   * Reading the exported text back gives the header and, for each record, the
   * plain text of its value under each header key, as long as no key needs
   * quoting and no text holds a newline (which `exportToCSV` does not quote).
   */
  lemma ExportRoundTrip(data: seq<Record>)
    requires data != [] && Keys(data[0]) != []
    requires forall k :: k in Keys(data[0]) ==> !NeedsQuotes(k) && '\n' !in k
    requires NoNewlines(data)
    ensures ParseCsv(ExportToCsv(data).value) == Table(data)
  {
    LinesExclude(data);
    SplitJoined(Lines(data));
    LinesRoundTrip(data);
  }

  lemma LinesExclude(data: seq<Record>)
    requires data != []
    requires forall k :: k in Keys(data[0]) ==> '\n' !in k
    requires NoNewlines(data)
    ensures forall i :: 0 <= i < |Lines(data)| ==> '\n' !in Lines(data)[i]
  {
    var headers, lines := Keys(data[0]), Lines(data);
    forall i | 0 <= i < |lines|
      ensures '\n' !in lines[i]
    {
      if i == 0 {
        Seqs.JoinExcludes(headers, ",", '\n');
      } else {
        LineExcludes(data[i - 1], headers);
      }
    }
  }

  lemma LinesRoundTrip(data: seq<Record>)
    requires data != [] && Keys(data[0]) != []
    requires forall k :: k in Keys(data[0]) ==> !NeedsQuotes(k)
    ensures ParseLines(Lines(data)) == Table(data)
  {
    var headers, lines, table := Keys(data[0]), Lines(data), Table(data);
    forall i | 0 <= i < |lines|
      ensures ParseLine(lines[i]) == table[i]
    {
      if i == 0 {
        assert EscapeAll(headers) == headers;
        ParseJoined(headers);
      } else {
        LineRoundTrip(data[i - 1], headers);
      }
    }
  }

  // ---------------------------------------------------------------------
  // exportWorkoutsToCSV

  const RecordKeys: seq<string> := ["date", "workout", "exercise", "bodyPart", "set", "weight", "reps", "volume"]

  /**
   * The record pushed for one set.  The stored weight is the text the form
   * sent (`weight.toString()`), and the volume is `parseFloat(weight) * reps`.
   */
  function SetRecord(x: LoggedSet): Record
    requires Resolved(x)
  {
    var e := x.entry.exercise.value;
    [Field("date", Day(DayOf(x.workout.startTime))),
     Field("workout", Str(x.workout.name)),
     Field("exercise", Str(e.name)),
     Field("bodyPart", Str(e.bodyPart)),
     Field("set", Num(x.workoutSet.setNumber * 100)),
     Field("weight", Str(Text.DecimalText(x.workoutSet.weight))),
     Field("reps", Num(x.workoutSet.reps * 100)),
     Field("volume", Num(SetVolume(x.workoutSet)))]
  }

  /** Every record has the same keys, in the same order. */
  lemma SetRecordKeys(x: LoggedSet)
    requires Resolved(x)
    ensures Keys(SetRecord(x)) == RecordKeys
  {
  }

  function Records(xs: seq<LoggedSet>): (rs: seq<Record>)
    requires AllResolved(xs)
    ensures |rs| == |xs| && forall n :: 0 <= n < |xs| ==> rs[n] == SetRecord(xs[n])
  {
    seq(|xs|, n requires 0 <= n < |xs| => SetRecord(xs[n]))
  }

  /** What pressing the export button leads to. */
  datatype Download = Threw | NoFile | File(content: string)

  /**
   * `exportWorkoutsToCSV`: a `TypeError` when a set's entry has no exercise,
   * no file when there is no set, else the text of the file.
   */
  function WorkoutsCsv(ws: seq<WorkoutWithDetails>): Download
  {
    var xs := LoggedSets(ws);
    if !AllResolved(xs) then Threw
    else
      var text := ExportToCsv(Records(xs));
      if text.None? then NoFile else File(text.value)
  }

  lemma RecordsSnoc(xs: seq<LoggedSet>, x: LoggedSet)
    requires AllResolved(xs) && Resolved(x)
    ensures AllResolved(xs + [x]) && Records(xs + [x]) == Records(xs) + [SetRecord(x)]
  {
    assert forall y :: y in xs + [x] ==> y in xs || y == x;
  }

  /** `exportWorkoutsToCSV`'s loops: workout by workout, exercise by exercise, set by set. */
  method ExportWorkoutsToCsv(workouts: seq<WorkoutWithDetails>) returns (d: Download)
    ensures d == WorkoutsCsv(workouts)
  {
    var csvData: seq<Record> := [];
    for i := 0 to |workouts|
      invariant AllResolved(LoggedSets(workouts[..i])) && csvData == Records(LoggedSets(workouts[..i]))
    {
      var workout := workouts[i];
      ghost var before := LoggedSets(workouts[..i]);
      for j := 0 to |workout.exercises|
        invariant AllResolved(before + SetsOfEntries(workout.workout, workout.exercises[..j]))
        invariant csvData == Records(before + SetsOfEntries(workout.workout, workout.exercises[..j]))
      {
        var exercise := workout.exercises[j];
        ghost var done := before + SetsOfEntries(workout.workout, workout.exercises[..j]);
        for k := 0 to |exercise.sets|
          invariant AllResolved(done + SetsOfEntry(workout.workout, exercise)[..k])
          invariant csvData == Records(done + SetsOfEntry(workout.workout, exercise)[..k])
        {
          if exercise.exercise.None? {
            LoggedSetsHas(workouts, i, j, k);
            return Threw;
          }
          var x := LoggedSet(workout.workout, exercise, exercise.sets[k]);
          RecordsStep(done, workout.workout, exercise, k);
          csvData := csvData + [SetRecord(x)];
        }
        SetsOfEntriesDone(before, workout.workout, workout.exercises, j);
      }
      LoggedSetsStep(workouts, i);
      assert workout.exercises[..|workout.exercises|] == workout.exercises;
    }
    assert workouts[..|workouts|] == workouts;
    var text := ExportToCsv(csvData);
    d := if text.None? then NoFile else File(text.value);
  }

  /** One more set of a resolved entry adds its record at the end. */
  lemma RecordsStep(done: seq<LoggedSet>, w: Workout, e: ExerciseEntry, k: nat)
    requires k < |e.sets| && e.exercise.Some?
    requires AllResolved(done + SetsOfEntry(w, e)[..k])
    ensures AllResolved(done + SetsOfEntry(w, e)[..k + 1])
    ensures Records(done + SetsOfEntry(w, e)[..k + 1]) == Records(done + SetsOfEntry(w, e)[..k]) + [SetRecord(LoggedSet(w, e, e.sets[k]))]
  {
    var x := LoggedSet(w, e, e.sets[k]);
    assert done + SetsOfEntry(w, e)[..k + 1] == (done + SetsOfEntry(w, e)[..k]) + [x];
    RecordsSnoc(done + SetsOfEntry(w, e)[..k], x);
  }

  /**
   * The export throws exactly when a set's entry has no stored exercise, which
   * is exactly when the server's export fails; it downloads nothing exactly
   * when there is no set at all.
   */
  lemma WorkoutsCsvCases(ws: seq<WorkoutWithDetails>)
    ensures WorkoutsCsv(ws).Threw? <==>
      exists w, e :: w in ws && e in w.exercises && e.exercise.None? && e.sets != []
    ensures WorkoutsCsv(ws).Threw? <==> Routes.CsvExport(ws).None?
    ensures WorkoutsCsv(ws).NoFile? <==> Seqs.Sum(ws, TotalSets) == 0
  {
    Routes.CsvExportFails(ws);
    LoggedSetsCount(ws);
  }

  /** In a record whose keys are distinct, each key finds its own field. */
  lemma {:induction false} LookupUnique(r: Record, i: nat)
    requires i < |r| && forall j :: 0 <= j < i ==> r[j].key != r[i].key
    ensures Lookup(r, r[i].key) == r[i].value
    decreases i
  {
    if i > 0 {
      assert r[1..][i - 1] == r[i];
      LookupUnique(r[1..], i - 1);
    }
  }

  /** Under its own keys, a record with distinct keys yields the texts of its values in order. */
  lemma TextsOwnKeys(r: Record)
    requires forall i, j :: 0 <= j < i < |r| ==> r[j].key != r[i].key
    ensures Texts(r, Keys(r)) == seq(|r|, i requires 0 <= i < |r| => Plain(r[i].value))
  {
    forall i | 0 <= i < |r|
      ensures Lookup(r, r[i].key) == r[i].value
    {
      LookupUnique(r, i);
    }
  }

  lemma RecordKeysDistinct()
    ensures forall i, j :: 0 <= j < i < |RecordKeys| ==> RecordKeys[j] != RecordKeys[i]
  {
    assert RecordKeys[2] != RecordKeys[3] by { assert RecordKeys[2][0] != RecordKeys[3][0]; }
    assert RecordKeys[5] != RecordKeys[7] by { assert RecordKeys[5][0] != RecordKeys[7][0]; }
  }

  /** The plain texts of a set's record are the cells of the server's row for that set. */
  lemma SetTexts(x: LoggedSet)
    requires Resolved(x)
    ensures Texts(SetRecord(x), RecordKeys) == Routes.CsvRow(x)
  {
    var r := SetRecord(x);
    SetRecordKeys(x);
    RecordKeysDistinct();
    TextsOwnKeys(r);
    Text.DecimalWhole(x.workoutSet.setNumber);
    Text.DecimalWhole(x.workoutSet.reps);
  }

  /**
   * Reading the downloaded file back gives the client's header and then, set
   * by set, the cells of the server's CSV row, whatever the names hold, as
   * long as they hold no newline.
   */
  lemma WorkoutsCsvRoundTrip(ws: seq<WorkoutWithDetails>)
    requires WorkoutsCsv(ws).File?
    requires forall x :: x in LoggedSets(ws) ==>
      ('\n' !in x.workout.name && '\n' !in x.entry.exercise.value.name && '\n' !in x.entry.exercise.value.bodyPart)
    ensures ParseCsv(WorkoutsCsv(ws).content) == [RecordKeys] + Routes.CsvRows(LoggedSets(ws))
  {
    var xs := LoggedSets(ws);
    var data: seq<Record> := Records(xs);
    assert WorkoutsCsv(ws).content == ExportToCsv(data).value;
    SetRecordKeys(xs[0]);
    RecordKeysPlain();
    RecordsNoNewlines(xs);
    ExportRoundTrip(data);
    RecordsTable(xs);
  }

  lemma RecordKeysPlain()
    ensures forall k :: k in RecordKeys ==> !NeedsQuotes(k) && '\n' !in k
  {
    forall i | 0 <= i < |RecordKeys|
      ensures !NeedsQuotes(RecordKeys[i]) && '\n' !in RecordKeys[i]
    {
      var k := RecordKeys[i];
      assert forall c :: c in k ==> 'a' <= c <= 'z' || c == 'P';
    }
  }

  /** The records of sets whose names hold no newline hold no newline. */
  lemma RecordsNoNewlines(xs: seq<LoggedSet>)
    requires AllResolved(xs)
    requires forall x :: x in xs ==>
      ('\n' !in x.workout.name && '\n' !in x.entry.exercise.value.name && '\n' !in x.entry.exercise.value.bodyPart)
    ensures NoNewlines(Records(xs))
  {
    var data: seq<Record> := Records(xs);
    forall i | 0 <= i < |data|
      ensures NoNewline(data[i])
    {
      assert xs[i] in xs;
      SetRecordNoNewline(xs[i]);
    }
  }

  lemma SetRecordNoNewline(x: LoggedSet)
    requires Resolved(x)
    requires '\n' !in x.workout.name && '\n' !in x.entry.exercise.value.name && '\n' !in x.entry.exercise.value.bodyPart
    ensures NoNewline(SetRecord(x))
  {
    var weight := Text.DecimalText(x.workoutSet.weight);
    Text.DecimalTextNumeric(x.workoutSet.weight);
    Text.NotNumeric(weight, '\n');
    var r := SetRecord(x);
    forall j | 0 <= j < |r| && r[j].value.Str?
      ensures '\n' !in r[j].value.s
    {
      assert r[j].value.s in {x.workout.name, x.entry.exercise.value.name, x.entry.exercise.value.bodyPart, weight};
    }
  }

  /** What a reader should find in the records of some sets: the keys, then the server's rows. */
  lemma RecordsTable(xs: seq<LoggedSet>)
    requires AllResolved(xs) && xs != []
    ensures Table(Records(xs)) == [RecordKeys] + Routes.CsvRows(xs)
  {
    var data: seq<Record> := Records(xs);
    SetRecordKeys(xs[0]);
    forall i | 0 <= i < |xs|
      ensures Texts(data[i], RecordKeys) == Routes.CsvRows(xs)[i]
    {
      RecordTextsAt(xs, i);
    }
    TableOf(data, RecordKeys, Routes.CsvRows(xs));
  }

  /** The cells of one set's record are the cells of its server row. */
  lemma RecordTextsAt(xs: seq<LoggedSet>, i: nat)
    requires AllResolved(xs) && i < |xs|
    ensures Texts(Records(xs)[i], RecordKeys) == Routes.CsvRows(xs)[i]
  {
    SetTexts(xs[i]);
  }

  /** The table of records whose keys and cells are known. */
  lemma TableOf(data: seq<Record>, keys: seq<string>, rows: seq<seq<string>>)
    requires data != [] && Keys(data[0]) == keys && |rows| == |data|
    requires forall i :: 0 <= i < |data| ==> Texts(data[i], keys) == rows[i]
    ensures Table(data) == [keys] + rows
  {
  }
}
