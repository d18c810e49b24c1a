/** `handleImport`: parse the file, deduce one date format from a sample of up
    to ten rows by majority vote, then turn every row into a measurement, the
    first bad row aborting the whole import. */
module CsvImport {
  import opened Wrappers
  import opened Text
  import opened Calendar
  import opened Iso
  import opened DatePatterns
  import opened CsvDates
  import opened CsvParse
  import opened Records

  // ---- Reading cells ----

  /** `row[k]`; a missing column reads as "", which is as falsy as `undefined`. */
  function Cell(row: Row, k: string): string {
    if k in row then row[k] else ""
  }

  /** `row[k0] || row[k1] || ...`: the first non-empty cell, "" when there is none. */
  function FirstNonEmpty(row: Row, keys: seq<string>): string {
    if keys == [] then ""
    else if Cell(row, keys[0]) != "" then Cell(row, keys[0])
    else FirstNonEmpty(row, keys[1..])
  }

  /** The chain is "" exactly when every column is, and otherwise the cell of
      the first column that is not. */
  lemma {:induction false} FirstNonEmptySpec(row: Row, keys: seq<string>)
    ensures FirstNonEmpty(row, keys) == "" <==> forall i :: 0 <= i < |keys| ==> Cell(row, keys[i]) == ""
    ensures FirstNonEmpty(row, keys) != "" ==>
              exists i :: 0 <= i < |keys| && Cell(row, keys[i]) == FirstNonEmpty(row, keys) &&
                          forall j :: 0 <= j < i ==> Cell(row, keys[j]) == ""
  {
    if keys != [] && Cell(row, keys[0]) == "" {
      FirstNonEmptySpec(row, keys[1..]);
      assert forall i :: 0 <= i < |keys| - 1 ==> keys[1..][i] == keys[i + 1];
      if FirstNonEmpty(row, keys) != "" {
        var i :| 0 <= i < |keys| - 1 && Cell(row, keys[1..][i]) == FirstNonEmpty(row, keys) &&
                 forall j :: 0 <= j < i ==> Cell(row, keys[1..][j]) == "";
        assert Cell(row, keys[i + 1]) == FirstNonEmpty(row, keys);
      }
    }
  }

  /** The column names each field is looked up under, in the order tried. */
  const DateKeys: seq<string> := ["date", "fecha"]
  const TemperatureKeys: seq<string> := ["temperature_c", "temperatura (\U{B0}c)", "temperature"]
  const HumidityKeys: seq<string> := ["humidity_pc", "humedad (%)", "humidity"]
  const PhKeys: seq<string> := ["ph"]
  const EcKeys: seq<string> := ["ec_ds_m", "ce (ds/m)"]
  const AmbientKeys: seq<string> := ["ambienttemperature_c", "temperatura_ambiental_c", "ambient_temperature"]
  const NotesKeys: seq<string> := ["notes", "notas"]

  /** `parseFloat(s)` with `None` for NaN. How a numeral is read is the oracle
      `num`; whatever it says, the empty string (and `undefined`) is NaN. */
  function ParseNumber(num: string -> Option<real>, s: string): Option<real> {
    if s == "" then None else num(s)
  }

  // ---- The vote over the sample ----

  /** What the import needs of `attemptParseDateWithFormats`: a date exactly
      when a format is named, a valid one, and named `"ISO"` or a candidate. */
  ghost predicate ParserContract(parse: string -> ParsedDate) {
    forall s :: (parse(s).date.Some? <==> parse(s).formatUsed.Some?) &&
                (parse(s).date.Some? ==> Valid(parse(s).date.value)) &&
                (parse(s).formatUsed.Some? ==> parse(s).formatUsed.value == IsoFormat || parse(s).formatUsed.value in FormatStrings)
  }

  /** The parser of dates keeps that contract. */
  lemma AttemptParseDateContract()
    ensures ParserContract(AttemptParseDate)
  {
    forall s ensures AttemptParseDate(s).formatUsed.Some? ==> AttemptParseDate(s).formatUsed.value == IsoFormat || AttemptParseDate(s).formatUsed.value in FormatStrings {
    }
  }

  /** The format a sample row votes for: its date cell's `formatUsed` under
      `parse`, if any. The import itself uses `AttemptParseDate`; the vote,
      the deduction and the row loop are stated for any `parse`. */
  function Vote(parse: string -> ParsedDate, row: Row): Option<string> {
    var v := FirstNonEmpty(row, DateKeys);
    if v == "" || Trim(v) == "" then None else parse(v).formatUsed
  }

  /** The votes of `rows`, in order. */
  function VotesOf(parse: string -> ParsedDate, rows: seq<Row>): seq<Option<string>> {
    seq(|rows|, i requires 0 <= i < |rows| => Vote(parse, rows[i]))
  }

  /** `formatCounts` with its keys in insertion order, and
      `successfullyParsedSampleCount`. */
  datatype Tally = Tally(keys: seq<string>, counts: map<string, nat>, parsed: nat)

  /** `formatCounts[f] || 0`. */
  function Count(t: Tally, f: string): nat {
    if f in t.counts then t.counts[f] else 0
  }

  /** One iteration of the sample loop. */
  function AddVote(t: Tally, vote: Option<string>): Tally {
    match vote
    case None => t
    case Some(f) =>
      Tally(if f in t.counts then t.keys else t.keys + [f], t.counts[f := Count(t, f) + 1], t.parsed + 1)
  }

  /** The sample loop over the rows' votes. */
  function TallyOf(votes: seq<Option<string>>): Tally {
    if votes == [] then Tally([], map[], 0)
    else AddVote(TallyOf(votes[..|votes| - 1]), votes[|votes| - 1])
  }

  /** The number of votes for `f`. */
  function VotesFor(votes: seq<Option<string>>, f: string): nat {
    if votes == [] then 0
    else VotesFor(votes[..|votes| - 1], f) + (if votes[|votes| - 1] == Some(f) then 1 else 0)
  }

  /** The number of rows voting at all. */
  function VotesCast(votes: seq<Option<string>>): (n: nat)
    ensures n <= |votes|
    ensures n == 0 <==> forall r :: 0 <= r < |votes| ==> votes[r].None?
  {
    if votes == [] then 0
    else
      var n := VotesCast(votes[..|votes| - 1]) + (if votes[|votes| - 1].Some? then 1 else 0);
      assert forall r :: 0 <= r < |votes| - 1 ==> votes[..|votes| - 1][r] == votes[r];
      n
  }

  /** The first vote for `f`. */
  function FirstVote(votes: seq<Option<string>>, f: string): (r: nat)
    requires VotesFor(votes, f) > 0
    ensures r < |votes| && votes[r] == Some(f)
    ensures forall q :: 0 <= q < r ==> votes[q] != Some(f)
  {
    var n := |votes| - 1;
    if VotesFor(votes[..n], f) > 0 then
      var r := FirstVote(votes[..n], f);
      assert forall q :: 0 <= q <= r ==> votes[..n][q] == votes[q];
      r
    else
      VotesForZero(votes[..n], f);
      assert forall q :: 0 <= q < n ==> votes[..n][q] == votes[q];
      n
  }

  lemma {:induction false} VotesForZero(votes: seq<Option<string>>, f: string)
    requires VotesFor(votes, f) == 0
    ensures forall q :: 0 <= q < |votes| ==> votes[q] != Some(f)
  {
    if votes != [] {
      var n := |votes| - 1;
      VotesForZero(votes[..n], f);
      assert forall q :: 0 <= q < n ==> votes[..n][q] == votes[q];
    }
  }

  /** What the loop keeps: distinct keys in insertion order, the keys exactly
      the counted formats, every count at least one. */
  ghost predicate WellKept(t: Tally) {
    (forall i, j :: 0 <= i < j < |t.keys| ==> t.keys[i] != t.keys[j]) &&
    (forall k :: k in t.counts <==> k in t.keys) &&
    (forall k :: k in t.counts ==> t.counts[k] >= 1)
  }

  /** The tally counts each format's votes, with distinct keys that are
      exactly the formats voted for. */
  lemma {:induction false} TallyCounts(votes: seq<Option<string>>)
    ensures WellKept(TallyOf(votes))
    ensures forall f :: Count(TallyOf(votes), f) == VotesFor(votes, f)
  {
    if votes != [] {
      var n := |votes| - 1;
      TallyCounts(votes[..n]);
      var t := TallyOf(votes[..n]);
      if votes[n].Some? && votes[n].value !in t.counts {
        var t' := TallyOf(votes);
        assert t'.keys == t.keys + [votes[n].value];
        assert forall i :: 0 <= i < |t.keys| ==> t'.keys[i] == t.keys[i];
      }
    }
  }

  /** `successfullyParsedSampleCount` counts the votes, and there is a key as
      soon as there is one vote. */
  lemma {:induction false} TallyParsed(votes: seq<Option<string>>)
    ensures TallyOf(votes).parsed == VotesCast(votes)
    ensures |TallyOf(votes).keys| == 0 <==> TallyOf(votes).parsed == 0
  {
    if votes != [] {
      TallyParsed(votes[..|votes| - 1]);
      TallyCounts(votes[..|votes| - 1]);
    }
  }

  /** The keys stand in the order of their first vote. */
  lemma {:induction false} TallyOrder(votes: seq<Option<string>>)
    ensures forall i :: 0 <= i < |TallyOf(votes).keys| ==> VotesFor(votes, TallyOf(votes).keys[i]) > 0
    ensures forall i, j :: 0 <= i < j < |TallyOf(votes).keys| ==>
              VotesFor(votes, TallyOf(votes).keys[i]) > 0 && VotesFor(votes, TallyOf(votes).keys[j]) > 0 &&
              FirstVote(votes, TallyOf(votes).keys[i]) < FirstVote(votes, TallyOf(votes).keys[j])
  {
    TallyCounts(votes);
    if votes != [] {
      var n := |votes| - 1;
      var prefix := votes[..n];
      TallyOrder(prefix);
      TallyCounts(prefix);
      var t := TallyOf(prefix);
      var t' := TallyOf(votes);
      forall i | 0 <= i < |t.keys| ensures FirstVote(votes, t.keys[i]) == FirstVote(prefix, t.keys[i]) {
        FirstVoteOfPrefix(votes, t.keys[i]);
      }
      if votes[n].Some? && votes[n].value !in t.counts {
        NewKeyOrder(votes, t.keys, votes[n].value);
      } else {
        assert t'.keys == t.keys;
      }
    }
  }

  /** A format voted for before the last vote keeps its first vote. */
  lemma FirstVoteOfPrefix(votes: seq<Option<string>>, f: string)
    requires |votes| >= 1 && VotesFor(votes[..|votes| - 1], f) > 0
    ensures VotesFor(votes, f) > 0
    ensures FirstVote(votes, f) == FirstVote(votes[..|votes| - 1], f)
  {
  }

  /** A key appended on the last vote comes after the keys before it. */
  lemma NewKeyOrder(votes: seq<Option<string>>, keys: seq<string>, f: string)
    requires |votes| >= 1 && votes[|votes| - 1] == Some(f)
    requires VotesFor(votes[..|votes| - 1], f) == 0
    requires forall i :: 0 <= i < |keys| ==> VotesFor(votes[..|votes| - 1], keys[i]) > 0
    requires forall i, j :: 0 <= i < j < |keys| ==>
               VotesFor(votes[..|votes| - 1], keys[i]) > 0 && VotesFor(votes[..|votes| - 1], keys[j]) > 0 &&
               FirstVote(votes[..|votes| - 1], keys[i]) < FirstVote(votes[..|votes| - 1], keys[j])
    ensures forall i, j :: 0 <= i < j < |keys + [f]| ==>
              VotesFor(votes, (keys + [f])[i]) > 0 && VotesFor(votes, (keys + [f])[j]) > 0 &&
              FirstVote(votes, (keys + [f])[i]) < FirstVote(votes, (keys + [f])[j])
  {
    var n := |votes| - 1;
    var prefix := votes[..n];
    assert FirstVote(votes, f) == n;
    forall i | 0 <= i < |keys| ensures VotesFor(votes, keys[i]) > 0 && FirstVote(votes, keys[i]) == FirstVote(prefix, keys[i]) < n {
      FirstVoteOfPrefix(votes, keys[i]);
    }
    forall i, j | 0 <= i < j < |keys + [f]|
      ensures VotesFor(votes, (keys + [f])[i]) > 0 && VotesFor(votes, (keys + [f])[j]) > 0 &&
              FirstVote(votes, (keys + [f])[i]) < FirstVote(votes, (keys + [f])[j])
    {
      assert (keys + [f])[i] == keys[i];
      if j < |keys| {
        assert (keys + [f])[j] == keys[j];
      }
    }
  }

  // ---- `Object.keys(formatCounts).reduce((a, b) => counts[a] > counts[b] ? a : b)` ----

  /** The reducer: the later key wins unless the earlier has strictly more. */
  function Pick(t: Tally, a: string, b: string): string {
    if Count(t, a) > Count(t, b) then a else b
  }

  /** The left fold of `Pick` over `keys`, without an initial value. */
  function Reduce(t: Tally, keys: seq<string>): string
    requires |keys| >= 1
  {
    if |keys| == 1 then keys[0] else Pick(t, Reduce(t, keys[..|keys| - 1]), keys[|keys| - 1])
  }

  /** The fold gives a key of greatest count, and the last one among equals:
      every later key has strictly fewer. */
  lemma {:induction false} ReduceIsLastMaximum(t: Tally, keys: seq<string>)
    requires |keys| >= 1
    ensures exists i :: 0 <= i < |keys| && keys[i] == Reduce(t, keys) &&
              (forall j :: 0 <= j < |keys| ==> Count(t, keys[j]) <= Count(t, Reduce(t, keys))) &&
              (forall j :: i < j < |keys| ==> Count(t, keys[j]) < Count(t, Reduce(t, keys)))
  {
    var n := |keys| - 1;
    if n == 0 {
      assert keys[0] == Reduce(t, keys);
    } else {
      var prefix := keys[..n];
      ReduceIsLastMaximum(t, prefix);
      var a := Reduce(t, prefix);
      var i :| 0 <= i < n && prefix[i] == a &&
               (forall j :: 0 <= j < n ==> Count(t, prefix[j]) <= Count(t, a)) &&
               (forall j :: i < j < n ==> Count(t, prefix[j]) < Count(t, a));
      assert forall j :: 0 <= j < n ==> prefix[j] == keys[j];
      if Count(t, a) > Count(t, keys[n]) {
        assert keys[i] == Reduce(t, keys);
      } else {
        assert keys[n] == Reduce(t, keys);
      }
    }
  }

  // ---- Deducing the format ----

  /** Why an import stops. The line number is the row's line in the file
      (the header being line 1). */
  datatype ImportError =
    | EmptyFile
    | DateFormatNotRecognized
    | DateFormatUndetermined
    | MissingDate(line: nat)
    | DateMismatch(line: nat)
    | InvalidTemperature(line: nat)
    | InvalidHumidity(line: nat)

  /** `Math.min(10, allCsvRows.length)`. */
  function SampleSize(n: nat): (k: nat)
    ensures k <= n && k <= 10 && (n >= 1 ==> k >= 1)
  {
    if n < 10 then n else 10
  }

  /** The deduction from the sample's votes: the winner, or the error the code reports. */
  function DeduceFromVotes(votes: seq<Option<string>>): Result<string, ImportError> {
    var t := TallyOf(votes);
    if t.parsed > 0 && |t.keys| > 0 then Ok(Reduce(t, t.keys))
    else if t.parsed == 0 && |votes| > 0 then Err(DateFormatNotRecognized)
    else Err(DateFormatUndetermined)
  }

  /** The deduction over the first `SampleSize` rows. */
  function DeduceFormat(parse: string -> ParsedDate, rows: seq<Row>): Result<string, ImportError> {
    DeduceFromVotes(VotesOf(parse, rows[..SampleSize(|rows|)]))
  }

  /** With at least one vote slot, the deduction fails exactly when nobody
      voted, and then as "not recognized", never as "undetermined". */
  lemma DeduceFromVotesFails(votes: seq<Option<string>>)
    requires |votes| >= 1
    ensures DeduceFromVotes(votes).Err? <==> forall r :: 0 <= r < |votes| ==> votes[r].None?
    ensures DeduceFromVotes(votes).Err? ==> DeduceFromVotes(votes).error == DateFormatNotRecognized
  {
    TallyParsed(votes);
  }

  /** When somebody voted, the deduction gives a format with the most votes. */
  lemma DeduceFromVotesWinner(votes: seq<Option<string>>)
    requires exists r :: 0 <= r < |votes| && votes[r].Some?
    ensures DeduceFromVotes(votes).Ok?
    ensures VotesFor(votes, DeduceFromVotes(votes).value) > 0
    ensures forall g :: VotesFor(votes, g) <= VotesFor(votes, DeduceFromVotes(votes).value)
  {
    TallyParsed(votes);
    TallyCounts(votes);
    var t := TallyOf(votes);
    ReduceIsLastMaximum(t, t.keys);
    var f := Reduce(t, t.keys);
    var i :| 0 <= i < |t.keys| && t.keys[i] == f &&
             (forall j :: 0 <= j < |t.keys| ==> Count(t, t.keys[j]) <= Count(t, f));
    forall g ensures VotesFor(votes, g) <= VotesFor(votes, f) {
      if g in t.counts {
        var j :| 0 <= j < |t.keys| && t.keys[j] == g;
        assert Count(t, t.keys[j]) <= Count(t, f);
      }
    }
  }

  /** Among formats with as many votes as the winner, the winner is the one
      whose first vote comes last. */
  lemma DeduceFromVotesTieBreak(votes: seq<Option<string>>, g: string)
    requires exists r :: 0 <= r < |votes| && votes[r].Some?
    requires DeduceFromVotes(votes).Ok?
    requires VotesFor(votes, g) == VotesFor(votes, DeduceFromVotes(votes).value) > 0
    ensures FirstVote(votes, g) <= FirstVote(votes, DeduceFromVotes(votes).value)
  {
    TallyParsed(votes);
    TallyCounts(votes);
    TallyOrder(votes);
    var t := TallyOf(votes);
    ReduceIsLastMaximum(t, t.keys);
    var f := Reduce(t, t.keys);
    var i :| 0 <= i < |t.keys| && t.keys[i] == f &&
             (forall j :: i < j < |t.keys| ==> Count(t, t.keys[j]) < Count(t, f));
    assert g in t.counts;
    var j :| 0 <= j < |t.keys| && t.keys[j] == g;
    assert !(i < j);
    if j < i {
      assert FirstVote(votes, t.keys[j]) < FirstVote(votes, t.keys[i]);
    }
  }

  /** A deduced format is one a sample row voted for, so `"ISO"` or a candidate. */
  lemma DeducedIsCandidate(votes: seq<Option<string>>)
    requires forall r :: 0 <= r < |votes| && votes[r].Some? ==> votes[r].value == IsoFormat || votes[r].value in FormatStrings
    ensures DeduceFromVotes(votes).Ok? ==> DeduceFromVotes(votes).value == IsoFormat || DeduceFromVotes(votes).value in FormatStrings
  {
    if exists r :: 0 <= r < |votes| && votes[r].Some? {
      DeduceFromVotesWinner(votes);
      var _ := FirstVote(votes, DeduceFromVotes(votes).value);
    } else {
      TallyParsed(votes);
    }
  }

  /** Under the parser's contract, the deduced format is `"ISO"` or a candidate. */
  lemma DeducedFormatIsCandidate(parse: string -> ParsedDate, rows: seq<Row>)
    requires ParserContract(parse)
    ensures DeduceFormat(parse, rows).Ok? ==>
              DeduceFormat(parse, rows).value == IsoFormat || DeduceFormat(parse, rows).value in FormatStrings
  {
    var sample := rows[..SampleSize(|rows|)];
    var votes := VotesOf(parse, sample);
    forall r | 0 <= r < |votes| && votes[r].Some?
      ensures votes[r].value == IsoFormat || votes[r].value in FormatStrings
    {
      assert votes[r] == parse(FirstNonEmpty(sample[r], DateKeys)).formatUsed;
    }
    DeducedIsCandidate(votes);
  }

  // ---- Building the measurements ----

  /** The row's date under the deduced format (`"ISO"` or a format string). */
  function ParseWithFormat(v: string, fmt: string): (d: Option<DateTime>)
    ensures d.Some? ==> Valid(d.value)
  {
    if fmt == IsoFormat then ParseIso(v) else ParsePattern(v, fmt, ReferenceYear)
  }

  /** The deduced format's reading, else the flexible one. */
  function RowDate(parse: string -> ParsedDate, v: string, fmt: string): (d: Option<DateTime>)
    ensures ParseWithFormat(v, fmt).Some? ==> d == ParseWithFormat(v, fmt)
    ensures ParseWithFormat(v, fmt).None? ==> d == parse(v).date
  {
    var d := ParseWithFormat(v, fmt);
    if d.Some? then d else parse(v).date
  }

  /** The `map` callback for row `index`, with `id` the fresh identifier. */
  function IngestRow(parse: string -> ParsedDate, num: string -> Option<real>, row: Row, index: nat, fmt: string, id: string): (r: Result<DataLog, ImportError>)
  {
    var v := FirstNonEmpty(row, DateKeys);
    if v == "" || Trim(v) == "" then Err(MissingDate(index + 2))
    else
      var date := RowDate(parse, v, fmt);
      if date.None? then Err(DateMismatch(index + 2))
      else
        var temperature := ParseNumber(num, FirstNonEmpty(row, TemperatureKeys));
        if temperature.None? then Err(InvalidTemperature(index + 2))
        else
          var humidity := ParseNumber(num, FirstNonEmpty(row, HumidityKeys));
          if humidity.None? then Err(InvalidHumidity(index + 2))
          else
            Ok(Measurement(num, row, id, date.value, temperature.value, humidity.value))
  }

  /** The measurement built from an accepted row: the optional readings are
      NaN-free numbers or absent, the notes the cell or "". */
  function Measurement(num: string -> Option<real>, row: Row, id: string, date: DateTime, temperature: real, humidity: real): DataLog {
    DataLog(id, date, temperature, humidity,
            ParseNumber(num, FirstNonEmpty(row, PhKeys)),
            ParseNumber(num, FirstNonEmpty(row, EcKeys)),
            ParseNumber(num, FirstNonEmpty(row, AmbientKeys)),
            Some(FirstNonEmpty(row, NotesKeys)))
  }

  /** A row is accepted exactly when it has a readable date, a temperature and
      a humidity; every error names the row's own line, and a missing date is
      reported exactly when the date cell is blank. */
  lemma IngestRowAccepts(parse: string -> ParsedDate, num: string -> Option<real>, row: Row, index: nat, fmt: string, id: string)
    ensures var r := IngestRow(parse, num, row, index, fmt, id);
            var v := FirstNonEmpty(row, DateKeys);
            (r.Ok? <==> Trim(v) != "" && RowDate(parse, v, fmt).Some? &&
                        ParseNumber(num, FirstNonEmpty(row, TemperatureKeys)).Some? &&
                        ParseNumber(num, FirstNonEmpty(row, HumidityKeys)).Some?) &&
            (r.Err? ==> r.error.line == index + 2) &&
            (r.Err? && r.error.MissingDate? <==> Trim(v) == "")
  {
    var v := FirstNonEmpty(row, DateKeys);
    if v == "" {
      assert Trim(v) == "";
    }
  }

  /** An accepted row becomes the measurement of its own cells, with the fresh
      id and its date, a valid one under the parser's contract. */
  lemma IngestRowValue(parse: string -> ParsedDate, num: string -> Option<real>, row: Row, index: nat, fmt: string, id: string)
    requires IngestRow(parse, num, row, index, fmt, id).Ok?
    ensures RowDate(parse, FirstNonEmpty(row, DateKeys), fmt).Some?
    ensures ParseNumber(num, FirstNonEmpty(row, TemperatureKeys)).Some?
    ensures ParseNumber(num, FirstNonEmpty(row, HumidityKeys)).Some?
    ensures IngestRow(parse, num, row, index, fmt, id).value ==
              Measurement(num, row, id, RowDate(parse, FirstNonEmpty(row, DateKeys), fmt).value,
                          ParseNumber(num, FirstNonEmpty(row, TemperatureKeys)).value,
                          ParseNumber(num, FirstNonEmpty(row, HumidityKeys)).value)
    ensures ParserContract(parse) ==> Valid(IngestRow(parse, num, row, index, fmt, id).value.date)
  {
  }

  /** A measurement has a pH exactly where the `ph` column holds a number. */
  lemma MeasurementPh(num: string -> Option<real>, row: Row, id: string, date: DateTime, temperature: real, humidity: real)
    ensures Measurement(num, row, id, date, temperature, humidity).ph.Some? <==> Cell(row, "ph") != "" && num(Cell(row, "ph")).Some?
  {
    assert FirstNonEmpty(row, PhKeys) == Cell(row, "ph");
  }

  /** A measurement's EC is read from `ec_ds_m`, else from `ce (ds/m)`. */
  lemma MeasurementEc(num: string -> Option<real>, row: Row, id: string, date: DateTime, temperature: real, humidity: real)
    ensures Cell(row, "ec_ds_m") != "" ==> Measurement(num, row, id, date, temperature, humidity).ec == num(Cell(row, "ec_ds_m"))
    ensures Cell(row, "ec_ds_m") == "" ==> Measurement(num, row, id, date, temperature, humidity).ec == ParseNumber(num, Cell(row, "ce (ds/m)"))
  {
    assert EcKeys[1..][1..] == [];
    assert FirstNonEmpty(row, EcKeys[1..]) == Cell(row, "ce (ds/m)");
  }

  /** A measurement's notes are the first non-empty notes cell, "" when neither has any. */
  lemma MeasurementNotes(num: string -> Option<real>, row: Row, id: string, date: DateTime, temperature: real, humidity: real)
    ensures Cell(row, "notes") != "" ==> Measurement(num, row, id, date, temperature, humidity).notes == Some(Cell(row, "notes"))
    ensures Cell(row, "notes") == "" ==> Measurement(num, row, id, date, temperature, humidity).notes == Some(Cell(row, "notas"))
  {
    assert NotesKeys[1..][1..] == [];
    assert FirstNonEmpty(row, NotesKeys[1..]) == Cell(row, "notas");
  }

  /** The callback's result on every row, row `q` drawing the fresh id `newId(q)`. */
  function RowResults(parse: string -> ParsedDate, num: string -> Option<real>, newId: nat -> string, rows: seq<Row>, fmt: string): seq<Result<DataLog, ImportError>> {
    seq(|rows|, q requires 0 <= q < |rows| => IngestRow(parse, num, rows[q], q, fmt, newId(q)))
  }

  /** The `map` from row `k` on: the first row that throws decides the error. */
  function Collect(rs: seq<Result<DataLog, ImportError>>, k: nat): Result<seq<DataLog>, ImportError>
    decreases |rs| - k
  {
    if k >= |rs| then Ok([])
    else match rs[k]
      case Err(e) => Err(e)
      case Ok(log) =>
        match Collect(rs, k + 1)
        case Err(e) => Err(e)
        case Ok(logs) => Ok([log] + logs)
  }

  /** All rows or nothing: success means one measurement per row from `k` on,
      in order; failure is the error of the first row from `k` that fails. */
  lemma {:induction false} CollectOutcome(rs: seq<Result<DataLog, ImportError>>, k: nat)
    requires k <= |rs|
    ensures Collect(rs, k).Ok? <==> forall q :: k <= q < |rs| ==> rs[q].Ok?
    ensures Collect(rs, k).Ok? ==> |Collect(rs, k).value| == |rs| - k
    ensures Collect(rs, k).Ok? ==> forall q :: k <= q < |rs| ==> Collect(rs, k).value[q - k] == rs[q].value
    ensures Collect(rs, k).Err? ==> exists q :: k <= q < |rs| && rs[q] == Err(Collect(rs, k).error) &&
                                      forall p :: k <= p < q ==> rs[p].Ok?
    decreases |rs| - k
  {
    if k < |rs| {
      CollectOutcome(rs, k + 1);
      var r := Collect(rs, k);
      if rs[k].Ok? {
        var rest := Collect(rs, k + 1);
        if rest.Err? {
          var q :| k + 1 <= q < |rs| && rs[q] == Err(rest.error) && forall p :: k + 1 <= p < q ==> rs[p].Ok?;
          assert rs[q] == Err(r.error);
        } else {
          assert r.value == [rs[k].value] + rest.value;
        }
      }
    }
  }

  // ---- The whole import ----

  /** `handleImport` from the file's text to the logs passed to `onImportData`. */
  function Import(parse: string -> ParsedDate, num: string -> Option<real>, newId: nat -> string, text: string): Result<seq<DataLog>, ImportError> {
    var rows := CsvRows(text);
    if rows == [] then Err(EmptyFile)
    else match DeduceFormat(parse, rows)
      case Err(e) => Err(e)
      case Ok(fmt) => Collect(RowResults(parse, num, newId, rows, fmt), 0)
  }

  /** An import fails as empty exactly when the text has no data line, and
      never as "undetermined". */
  lemma ImportCsvErrors(parse: string -> ParsedDate, num: string -> Option<real>, newId: nat -> string, text: string)
    ensures Import(parse, num, newId, text) == Err(EmptyFile) <==> |Lines(text)| < 2
    ensures Import(parse, num, newId, text) != Err(DateFormatUndetermined)
  {
    var rows := CsvRows(text);
    if rows != [] {
      var votes := VotesOf(parse, rows[..SampleSize(|rows|)]);
      DeduceFromVotesFails(votes);
      if DeduceFormat(parse, rows).Ok? {
        var rs := RowResults(parse, num, newId, rows, DeduceFormat(parse, rows).value);
        CollectOutcome(rs, 0);
        if Collect(rs, 0).Err? {
          var q :| 0 <= q < |rs| && rs[q] == Err(Collect(rs, 0).error);
          IngestRowAccepts(parse, num, rows[q], q, DeduceFormat(parse, rows).value, newId(q));
        }
      }
    }
  }

  /** The row loop succeeds with one measurement per row, in order, each the
      row's own. */
  lemma RowsSucceed(parse: string -> ParsedDate, num: string -> Option<real>, newId: nat -> string, rows: seq<Row>, fmt: string)
    requires Collect(RowResults(parse, num, newId, rows, fmt), 0).Ok?
    ensures |Collect(RowResults(parse, num, newId, rows, fmt), 0).value| == |rows|
    ensures forall q :: 0 <= q < |rows| ==>
              IngestRow(parse, num, rows[q], q, fmt, newId(q)) == Ok(Collect(RowResults(parse, num, newId, rows, fmt), 0).value[q])
  {
    var f := q => if 0 <= q < |rows| then IngestRow(parse, num, rows[q], q, fmt, newId(q)) else Err(EmptyFile);
    CollectSucceeds(RowResults(parse, num, newId, rows, fmt), f);
  }

  /** `Collect` over results given by `f`: success gives `f`'s values in order. */
  lemma CollectSucceeds(rs: seq<Result<DataLog, ImportError>>, f: nat -> Result<DataLog, ImportError>)
    requires forall q :: 0 <= q < |rs| ==> rs[q] == f(q)
    requires Collect(rs, 0).Ok?
    ensures |Collect(rs, 0).value| == |rs|
    ensures forall q :: 0 <= q < |rs| ==> f(q) == Ok(Collect(rs, 0).value[q])
  {
    CollectOutcome(rs, 0);
    forall q | 0 <= q < |rs|
      ensures f(q) == Ok(Collect(rs, 0).value[q])
    {
      assert Collect(rs, 0).value[q - 0] == rs[q].value;
    }
  }

  /** An import that succeeds yields one measurement per data line, in order,
      each the row's own under the deduced format, with the row's fresh id. */
  lemma ImportCsvSucceeds(parse: string -> ParsedDate, num: string -> Option<real>, newId: nat -> string, text: string)
    requires Import(parse, num, newId, text).Ok?
    ensures var rows := CsvRows(text);
            var logs := Import(parse, num, newId, text).value;
            DeduceFormat(parse, rows).Ok? && |logs| == |rows| == |Lines(text)| - 1 &&
            forall q :: 0 <= q < |rows| ==>
              IngestRow(parse, num, rows[q], q, DeduceFormat(parse, rows).value, newId(q)) == Ok(logs[q])
  {
    var rows := CsvRows(text);
    var fmt := DeduceFormat(parse, rows).value;
    assert Import(parse, num, newId, text) == Collect(RowResults(parse, num, newId, rows, fmt), 0);
    RowsSucceed(parse, num, newId, rows, fmt);
  }

  /** An import that reaches the rows and fails reports the first failing row. */
  lemma ImportCsvFailsAtFirstBadRow(parse: string -> ParsedDate, num: string -> Option<real>, newId: nat -> string, text: string)
    requires CsvRows(text) != [] && DeduceFormat(parse, CsvRows(text)).Ok?
    requires Import(parse, num, newId, text).Err?
    ensures var rows := CsvRows(text);
            exists q :: 0 <= q < |rows| &&
              IngestRow(parse, num, rows[q], q, DeduceFormat(parse, rows).value, newId(q)) == Err(Import(parse, num, newId, text).error) &&
              forall p :: 0 <= p < q ==> IngestRow(parse, num, rows[p], p, DeduceFormat(parse, rows).value, newId(p)).Ok?
  {
    var rows := CsvRows(text);
    var fmt := DeduceFormat(parse, rows).value;
    assert Import(parse, num, newId, text) == Collect(RowResults(parse, num, newId, rows, fmt), 0);
    RowsFail(parse, num, newId, rows, fmt);
  }

  /** The row loop fails at the first row that fails. */
  lemma RowsFail(parse: string -> ParsedDate, num: string -> Option<real>, newId: nat -> string, rows: seq<Row>, fmt: string)
    requires Collect(RowResults(parse, num, newId, rows, fmt), 0).Err?
    ensures exists q :: 0 <= q < |rows| &&
              IngestRow(parse, num, rows[q], q, fmt, newId(q)) == Err(Collect(RowResults(parse, num, newId, rows, fmt), 0).error) &&
              forall p :: 0 <= p < q ==> IngestRow(parse, num, rows[p], p, fmt, newId(p)).Ok?
  {
    var rs := RowResults(parse, num, newId, rows, fmt);
    var e := Collect(rs, 0).error;
    CollectOutcome(rs, 0);
    var q :| 0 <= q < |rows| && rs[q] == Err(e) && forall p :: 0 <= p < q ==> rs[p].Ok?;
    forall p | 0 <= p < q
      ensures IngestRow(parse, num, rows[p], p, fmt, newId(p)).Ok?
    {
      assert rs[p].Ok?;
    }
    assert IngestRow(parse, num, rows[q], q, fmt, newId(q)) == Err(e);
  }

  // ---- The handler itself ----

  /** The sample loop: `formatCounts` (with its keys in insertion order) and
      `successfullyParsedSampleCount` updated row by row. */
  method TallySample(parse: string -> ParsedDate, sampleRows: seq<Row>) returns (t: Tally)
    ensures t == TallyOf(VotesOf(parse, sampleRows))
  {
    t := Tally([], map[], 0);
    ghost var votes := VotesOf(parse, sampleRows);
    var i := 0;
    while i < |sampleRows|
      invariant 0 <= i <= |sampleRows|
      invariant t == TallyOf(votes[..i])
    {
      t := TallyRow(parse, sampleRows[i], t);
      assert votes[i] == Vote(parse, sampleRows[i]);
      TallyStep(votes, i);
      i := i + 1;
    }
    assert votes[..|sampleRows|] == votes;
  }

  /** The body of the sample loop: a row whose date parses counts for its format. */
  method TallyRow(parse: string -> ParsedDate, row: Row, t: Tally) returns (t': Tally)
    ensures t' == AddVote(t, Vote(parse, row))
  {
    t' := t;
    var dateValue := FirstNonEmpty(row, DateKeys);
    if dateValue != "" && Trim(dateValue) != "" {
      var formatUsed := parse(dateValue).formatUsed;
      if formatUsed.Some? {
        t' := CountFormat(t, formatUsed.value);
      }
    }
  }

  /** One more vote tallied is one more `AddVote`. */
  lemma TallyStep(votes: seq<Option<string>>, i: nat)
    requires i < |votes|
    ensures TallyOf(votes[..i + 1]) == AddVote(TallyOf(votes[..i]), votes[i])
  {
    assert votes[..i + 1][..i] == votes[..i];
  }

  /** `formatCounts[f] = (formatCounts[f] || 0) + 1; successfullyParsedSampleCount++`. */
  method CountFormat(t: Tally, f: string) returns (t': Tally)
    ensures t' == AddVote(t, Some(f))
  {
    t' := t;
    if f !in t'.counts {
      t' := t'.(keys := t'.keys + [f]);
    }
    t' := t'.(counts := t'.counts[f := Count(t', f) + 1], parsed := t'.parsed + 1);
  }

  /** `handleImport` once the file is read: the parse, the sample loop, the
      deduction with its two early returns, then the row `map`. */
  method HandleImport(parse: string -> ParsedDate, num: string -> Option<real>, newId: nat -> string, text: string)
    returns (r: Result<seq<DataLog>, ImportError>)
    ensures r == Import(parse, num, newId, text)
  {
    var allCsvRows := ParseCsv(text);
    if |allCsvRows| == 0 {
      return Err(EmptyFile);
    }
    var sampleSize := SampleSize(|allCsvRows|);
    var sampleRows := allCsvRows[..sampleSize];
    var t := TallySample(parse, sampleRows);
    var deducedFormat: Option<string> := None;
    if t.parsed > 0 && |t.keys| > 0 {
      deducedFormat := Some(Reduce(t, t.keys));
    } else if t.parsed == 0 && |sampleRows| > 0 {
      return Err(DateFormatNotRecognized);
    }
    if deducedFormat.None? {
      return Err(DateFormatUndetermined);
    }
    r := Collect(RowResults(parse, num, newId, allCsvRows, deducedFormat.value), 0);
  }

  /** `handleImport` with `attemptParseDateWithFormats` as the flexible parser. */
  function ImportCsv(num: string -> Option<real>, newId: nat -> string, text: string): Result<seq<DataLog>, ImportError> {
    Import(AttemptParseDate, num, newId, text)
  }

  /** Every imported measurement carries a valid date. */
  lemma ImportCsvDatesValid(num: string -> Option<real>, newId: nat -> string, text: string)
    requires ImportCsv(num, newId, text).Ok?
    ensures forall q :: 0 <= q < |ImportCsv(num, newId, text).value| ==> Valid(ImportCsv(num, newId, text).value[q].date)
  {
    var parse := AttemptParseDate;
    AttemptParseDateContract();
    ImportCsvSucceeds(parse, num, newId, text);
    var rows := CsvRows(text);
    forall q | 0 <= q < |ImportCsv(num, newId, text).value| ensures Valid(ImportCsv(num, newId, text).value[q].date) {
      IngestRowValue(parse, num, rows[q], q, DeduceFormat(parse, rows).value, newId(q));
    }
  }
}
