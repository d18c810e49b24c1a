/** Exporting measurements and importing the file again: with `parseFloat`
    reading the numerals `toFixed` writes at their value, every measurement
    comes back with its date, its readings rounded the way `toFixed` rounds
    them, its missing readings missing, its notes as the quoted cell, and a
    fresh id. */
module CsvRoundTrip {
  import opened Wrappers
  import opened Text
  import opened Calendar
  import opened Iso
  import opened CsvDates
  import opened Decimal
  import opened Records
  import opened CsvParse
  import opened CsvExport
  import opened CsvReadBack
  import opened CsvImport

  /** What is assumed of `parseFloat`: a numeral reads as its exact value. */
  ghost predicate ReadsNumerals(num: string -> Option<real>) {
    forall s :: IsNumeral(s) ==> num(s) == Some(NumeralValue(s))
  }

  /** What is assumed of the flexible date parser: a non-blank date that
      `parseISO` reads is read as ISO. `attemptParseDateWithFormats` is such
      a parser (`AttemptParseDateIsoFirst`). */
  ghost predicate IsoFirst(parse: string -> ParsedDate) {
    forall s :: Trim(s) != "" && ParseIso(s).Some? ==> parse(s) == ParsedDate(ParseIso(s), Some(IsoFormat))
  }

  lemma AttemptParseDateIsoFirst()
    ensures IsoFirst(AttemptParseDate)
  {
    forall s | Trim(s) != "" && ParseIso(s).Some? ensures AttemptParseDate(s) == ParsedDate(ParseIso(s), Some(IsoFormat)) {
    }
  }

  /** A measurement the round trip covers: reimportable, of a four-digit year
      of the common era (`YearZeroReadsAsYearOne` shows why year 0 does not). */
  predicate RoundTrips(log: DataLog) {
    Reimportable(log) && 1 <= log.date.year <= 9999
  }

  function RoundedOption(x: Option<real>, f: nat): Option<real> {
    if x.Some? then Some(Rounded(x.value, f)) else None
  }

  /** The measurement the import makes of an exported one, under the id `id`. */
  function Reimported(id: string, log: DataLog): DataLog {
    DataLog(id, log.date, Rounded(log.temperature, 1), Rounded(log.humidity, 1),
            RoundedOption(log.ph, 1), RoundedOption(log.ec, 2), RoundedOption(log.ambientTemperature, 1),
            Some(NotesCell(log.notes)))
  }

  // ---- One cell read back ----

  /** A `toFixed` cell reads back as the rounded number. */
  lemma FixedReads(huge: real -> string, num: string -> Option<real>, x: real, f: nat)
    requires ReadsNumerals(num) && InRange(x)
    ensures ParseNumber(num, ToFixed(huge, x, f)) == Some(Rounded(x, f))
  {
    ToFixedValue(huge, x, f);
    ToFixedChars(huge, x, f);
  }

  /** An optional reading's cell reads back as the rounded number, or as NaN when empty. */
  lemma OptionalReads(huge: real -> string, num: string -> Option<real>, x: Option<real>, f: nat)
    requires ReadsNumerals(num) && OptionalInRange(x)
    ensures ParseNumber(num, FixedOrEmpty(huge, x, f)) == RoundedOption(x, f)
  {
    if x.Some? {
      FixedReads(huge, num, x.value, f);
    }
  }

  /** The date cell is not blank, `parseISO` reads it, and the reading
      under the deduced ISO format gives the date back. */
  lemma DateReads(d: DateTime)
    requires Valid(d) && 1 <= d.year <= 9999
    ensures Trim(FormatDateTime(d)) == FormatDateTime(d) != ""
    ensures ParseIso(FormatDateTime(d)) == Some(d)
    ensures ParseWithFormat(FormatDateTime(d), IsoFormat) == Some(d)
  {
    DateCellClean(d);
    PadWidth(d.year, 4);
    TrimNoSpace(FormatDateTime(d));
    FormatDateTimeIsIso(d);
  }

  // ---- One row looked up ----

  /** A row keyed by `keys` holds cell `j` under key `j`. */
  lemma KeyedCell(row: Row, keys: seq<string>, cells: seq<string>, j: nat)
    requires RowHolds(row, keys, cells) && j < |keys|
    ensures Cell(row, keys[j]) == cells[j]
  {
  }

  /** A row keyed by `keys` reads "" under any other name. */
  lemma MissingKey(row: Row, keys: seq<string>, cells: seq<string>, k: string)
    requires RowHolds(row, keys, cells) && k !in keys
    ensures Cell(row, k) == ""
  {
  }

  /** The lookup chain stops at a first column that holds something. */
  lemma FirstCell(row: Row, keys: seq<string>)
    requires |keys| >= 1 && Cell(row, keys[0]) != ""
    ensures FirstNonEmpty(row, keys) == Cell(row, keys[0])
  {
  }

  /** The lookup chain is "" when no column holds anything. */
  lemma NoCell(row: Row, keys: seq<string>)
    requires forall i :: 0 <= i < |keys| ==> Cell(row, keys[i]) == ""
    ensures FirstNonEmpty(row, keys) == ""
  {
    FirstNonEmptySpec(row, keys);
  }

  /** A chain whose first column holds `c`, and whose later columns are
      empty, looks up `c`, even when `c` is "". */
  lemma ChainCell(row: Row, keys: seq<string>, c: string)
    requires |keys| >= 1 && Cell(row, keys[0]) == c
    requires forall i :: 1 <= i < |keys| ==> Cell(row, keys[i]) == ""
    ensures FirstNonEmpty(row, keys) == c
  {
    if c == "" {
      NoCell(row, keys);
    }
  }

  /** The export's names for the lookups' other spellings are absent. */
  lemma OtherSpellingsAbsent()
    ensures "ce (ds/m)" !in HeaderKeys
    ensures "temperatura_ambiental_c" !in HeaderKeys && "ambient_temperature" !in HeaderKeys
  {
  }

  /** The cells an exported row offers each lookup of the import. */
  lemma ExportedLookups(huge: real -> string, row: Row, log: DataLog)
    requires Exportable(log) && RowHolds(row, HeaderKeys, Cells(huge, log))
    ensures FirstNonEmpty(row, DateKeys) == FormatDateTime(log.date)
    ensures FirstNonEmpty(row, PhKeys) == FixedOrEmpty(huge, log.ph, 1)
    ensures FirstNonEmpty(row, EcKeys) == FixedOrEmpty(huge, log.ec, 2)
    ensures FirstNonEmpty(row, AmbientKeys) == FixedOrEmpty(huge, log.ambientTemperature, 1)
    ensures FirstNonEmpty(row, NotesKeys) == NotesCell(log.notes)
  {
    ExportedDateAndNotes(huge, row, log);
    ExportedOptionalReadings(huge, row, log);
  }

  lemma ExportedDateAndNotes(huge: real -> string, row: Row, log: DataLog)
    requires Exportable(log) && RowHolds(row, HeaderKeys, Cells(huge, log))
    ensures FirstNonEmpty(row, DateKeys) == FormatDateTime(log.date)
    ensures FirstNonEmpty(row, NotesKeys) == NotesCell(log.notes)
  {
    var cells := Cells(huge, log);
    KeyedCell(row, HeaderKeys, cells, 0);
    KeyedCell(row, HeaderKeys, cells, 6);
    OtherSpellingsAbsent();
    ChainCell(row, DateKeys, cells[0]);
    FirstCell(row, NotesKeys);
  }

  lemma ExportedOptionalReadings(huge: real -> string, row: Row, log: DataLog)
    requires Exportable(log) && RowHolds(row, HeaderKeys, Cells(huge, log))
    ensures FirstNonEmpty(row, PhKeys) == FixedOrEmpty(huge, log.ph, 1)
    ensures FirstNonEmpty(row, EcKeys) == FixedOrEmpty(huge, log.ec, 2)
    ensures FirstNonEmpty(row, AmbientKeys) == FixedOrEmpty(huge, log.ambientTemperature, 1)
  {
    var cells := Cells(huge, log);
    KeyedCell(row, HeaderKeys, cells, 3);
    KeyedCell(row, HeaderKeys, cells, 4);
    KeyedCell(row, HeaderKeys, cells, 5);
    OtherSpellingsAbsent();
    MissingKey(row, HeaderKeys, cells, "ce (ds/m)");
    MissingKey(row, HeaderKeys, cells, "temperatura_ambiental_c");
    MissingKey(row, HeaderKeys, cells, "ambient_temperature");
    ChainCell(row, PhKeys, cells[3]);
    ChainCell(row, EcKeys, cells[4]);
    ChainCell(row, AmbientKeys, cells[5]);
  }

  /** The temperature and humidity cells an exported row offers. */
  lemma ExportedReadings(huge: real -> string, row: Row, log: DataLog)
    requires Reimportable(log) && RowHolds(row, HeaderKeys, Cells(huge, log))
    ensures FirstNonEmpty(row, TemperatureKeys) == ToFixed(huge, log.temperature, 1)
    ensures FirstNonEmpty(row, HumidityKeys) == ToFixed(huge, log.humidity, 1)
  {
    var cells := Cells(huge, log);
    assert cells[1] == ToFixed(huge, log.temperature, 1) && cells[2] == ToFixed(huge, log.humidity, 1);
    assert HeaderKeys[1] == TemperatureKeys[0] && HeaderKeys[2] == HumidityKeys[0];
    KeyedCell(row, HeaderKeys, cells, 1);
    KeyedCell(row, HeaderKeys, cells, 2);
    ReadingCell(huge, row, TemperatureKeys, log.temperature);
    ReadingCell(huge, row, HumidityKeys, log.humidity);
  }

  /** A lookup whose first column holds a reading `x` written to one decimal finds it. */
  lemma ReadingCell(huge: real -> string, row: Row, keys: seq<string>, x: real)
    requires |keys| >= 1 && -Threshold < x < Threshold && Cell(row, keys[0]) == ToFixed(huge, x, 1)
    ensures FirstNonEmpty(row, keys) == ToFixed(huge, x, 1)
  {
    ToFixedChars(huge, x, 1);
    FirstCell(row, keys);
  }

  /** The cells each lookup of the import finds in the row of `log`'s line. */
  predicate ExportedCells(huge: real -> string, row: Row, log: DataLog)
    requires Exportable(log)
  {
    FirstNonEmpty(row, DateKeys) == FormatDateTime(log.date) &&
    FirstNonEmpty(row, TemperatureKeys) == ToFixed(huge, log.temperature, 1) &&
    FirstNonEmpty(row, HumidityKeys) == ToFixed(huge, log.humidity, 1) &&
    FirstNonEmpty(row, PhKeys) == FixedOrEmpty(huge, log.ph, 1) &&
    FirstNonEmpty(row, EcKeys) == FixedOrEmpty(huge, log.ec, 2) &&
    FirstNonEmpty(row, AmbientKeys) == FixedOrEmpty(huge, log.ambientTemperature, 1) &&
    FirstNonEmpty(row, NotesKeys) == NotesCell(log.notes)
  }

  /** The row `parseCsv` makes of a reimportable measurement's line offers
      the import's lookups the cells written. */
  lemma ExportedRowCells(huge: real -> string, row: Row, log: DataLog)
    requires Reimportable(log) && RowHolds(row, HeaderKeys, Cells(huge, log))
    ensures ExportedCells(huge, row, log)
  {
    ExportedLookups(huge, row, log);
    ExportedReadings(huge, row, log);
  }

  /** A row whose date cell `parseISO` reads votes for ISO. */
  lemma IsoVote(parse: string -> ParsedDate, row: Row)
    requires IsoFirst(parse)
    requires Trim(FirstNonEmpty(row, DateKeys)) != "" && ParseIso(FirstNonEmpty(row, DateKeys)).Some?
    ensures Vote(parse, row) == Some(IsoFormat)
  {
  }

  /** Under ISO, a row with a date, a temperature and a humidity is ingested
      as the measurement of its cells. */
  lemma IsoIngest(parse: string -> ParsedDate, num: string -> Option<real>, row: Row, index: nat, id: string, d: DateTime, t: real, h: real)
    requires Trim(FirstNonEmpty(row, DateKeys)) != "" && ParseIso(FirstNonEmpty(row, DateKeys)) == Some(d)
    requires ParseNumber(num, FirstNonEmpty(row, TemperatureKeys)) == Some(t)
    requires ParseNumber(num, FirstNonEmpty(row, HumidityKeys)) == Some(h)
    ensures IngestRow(parse, num, row, index, IsoFormat, id) == Ok(Measurement(num, row, id, d, t, h))
  {
  }

  /** The measurement built from an exported row is the reimported one. */
  lemma ExportedMeasurement(huge: real -> string, num: string -> Option<real>, row: Row, log: DataLog, id: string)
    requires ReadsNumerals(num) && RoundTrips(log) && ExportedCells(huge, row, log)
    ensures Measurement(num, row, id, log.date, Rounded(log.temperature, 1), Rounded(log.humidity, 1)) == Reimported(id, log)
  {
    OptionalReads(huge, num, log.ph, 1);
    OptionalReads(huge, num, log.ec, 2);
    OptionalReads(huge, num, log.ambientTemperature, 1);
  }

  /** An exported row votes for ISO. */
  lemma ExportedVote(parse: string -> ParsedDate, huge: real -> string, row: Row, log: DataLog)
    requires IsoFirst(parse) && RoundTrips(log) && ExportedCells(huge, row, log)
    ensures Vote(parse, row) == Some(IsoFormat)
  {
    DateReads(log.date);
    IsoVote(parse, row);
  }

  /** Under ISO, an exported row is ingested with its date and its rounded
      temperature and humidity. */
  lemma ExportedIngest(parse: string -> ParsedDate, huge: real -> string, num: string -> Option<real>, row: Row, log: DataLog, index: nat, id: string)
    requires ReadsNumerals(num) && RoundTrips(log) && ExportedCells(huge, row, log)
    ensures IngestRow(parse, num, row, index, IsoFormat, id) ==
              Ok(Measurement(num, row, id, log.date, Rounded(log.temperature, 1), Rounded(log.humidity, 1)))
  {
    DateReads(log.date);
    FixedReads(huge, num, log.temperature, 1);
    FixedReads(huge, num, log.humidity, 1);
    IsoIngest(parse, num, row, index, id, log.date, Rounded(log.temperature, 1), Rounded(log.humidity, 1));
  }

  /** An exported row votes for ISO and is ingested, under ISO, as the
      reimported measurement. */
  lemma ExportedRowIngests(parse: string -> ParsedDate, huge: real -> string, num: string -> Option<real>, row: Row, log: DataLog, index: nat, id: string)
    requires IsoFirst(parse) && ReadsNumerals(num) && RoundTrips(log) && ExportedCells(huge, row, log)
    ensures Vote(parse, row) == Some(IsoFormat)
    ensures IngestRow(parse, num, row, index, IsoFormat, id) == Ok(Reimported(id, log))
  {
    ExportedVote(parse, huge, row, log);
    ExportedIngest(parse, huge, num, row, log, index, id);
    ExportedMeasurement(huge, num, row, log, id);
  }

  // ---- The vote ----

  /** Votes all for one format elect it. */
  lemma UnanimousVote(votes: seq<Option<string>>, f: string)
    requires |votes| >= 1 && forall r :: 0 <= r < |votes| ==> votes[r] == Some(f)
    ensures DeduceFromVotes(votes) == Ok(f)
  {
    DeduceFromVotesWinner(votes);
    var w := DeduceFromVotes(votes).value;
    var r := FirstVote(votes, w);
    assert votes[r] == Some(w);
  }

  /** Rows that all vote for `fmt` make the import deduce it. */
  lemma UnanimousRows(parse: string -> ParsedDate, rows: seq<Row>, fmt: string)
    requires |rows| >= 1 && forall q :: 0 <= q < |rows| ==> Vote(parse, rows[q]) == Some(fmt)
    ensures DeduceFormat(parse, rows) == Ok(fmt)
  {
    var sample := rows[..SampleSize(|rows|)];
    UnanimousVote(VotesOf(parse, sample), fmt);
  }

  /** Rows each ingested under `fmt` as the measurement of the same place
      are collected as those measurements. */
  lemma RowsIngest(parse: string -> ParsedDate, num: string -> Option<real>, newId: nat -> string, rows: seq<Row>, fmt: string, logs: seq<DataLog>)
    requires |rows| == |logs|
    requires forall q :: 0 <= q < |rows| ==> IngestRow(parse, num, rows[q], q, fmt, newId(q)) == Ok(logs[q])
    ensures Collect(RowResults(parse, num, newId, rows, fmt), 0) == Ok(logs)
  {
    var rs := RowResults(parse, num, newId, rows, fmt);
    CollectAll(rs, logs);
  }

  /** Results that are all successes collect as their values. */
  lemma CollectAll(rs: seq<Result<DataLog, ImportError>>, logs: seq<DataLog>)
    requires |rs| == |logs| && forall q :: 0 <= q < |rs| ==> rs[q] == Ok(logs[q])
    ensures Collect(rs, 0) == Ok(logs)
  {
    CollectOutcome(rs, 0);
  }

  // ---- The whole round trip ----

  /** The measurements an import of the export gives: each one reimported
      under the fresh id of its row. */
  function ReimportedAll(newId: nat -> string, logs: seq<DataLog>): (r: seq<DataLog>)
    ensures |r| == |logs|
  {
    seq(|logs|, q requires 0 <= q < |logs| => Reimported(newId(q), logs[q]))
  }

  /** Rows, each of which is an exported measurement's, vote for ISO and are
      all ingested, in order, as the reimported measurements. */
  lemma ExportedRowsIngest(parse: string -> ParsedDate, huge: real -> string, num: string -> Option<real>, newId: nat -> string, rows: seq<Row>, logs: seq<DataLog>)
    requires IsoFirst(parse) && ReadsNumerals(num) && |rows| == |logs| >= 1
    requires forall q :: 0 <= q < |logs| ==> Exportable(logs[q])
    requires forall q :: 0 <= q < |logs| ==> RoundTrips(logs[q])
    requires forall q :: 0 <= q < |logs| ==> RowHolds(rows[q], HeaderKeys, Cells(huge, logs[q]))
    ensures DeduceFormat(parse, rows) == Ok(IsoFormat)
    ensures Collect(RowResults(parse, num, newId, rows, IsoFormat), 0) == Ok(ReimportedAll(newId, logs))
  {
    var expected := ReimportedAll(newId, logs);
    forall q | 0 <= q < |rows|
      ensures Vote(parse, rows[q]) == Some(IsoFormat)
      ensures IngestRow(parse, num, rows[q], q, IsoFormat, newId(q)) == Ok(expected[q])
    {
      ExportedRowCells(huge, rows[q], logs[q]);
      ExportedRowIngests(parse, huge, num, rows[q], logs[q], q, newId(q));
    }
    UnanimousRows(parse, rows, IsoFormat);
    RowsIngest(parse, num, newId, rows, IsoFormat, expected);
  }

  /** A text with rows from which ISO is deduced imports as those rows' ingestion. */
  lemma ImportOfIsoRows(parse: string -> ParsedDate, num: string -> Option<real>, newId: nat -> string, text: string, logs: seq<DataLog>)
    requires CsvRows(text) != [] && DeduceFormat(parse, CsvRows(text)) == Ok(IsoFormat)
    requires Collect(RowResults(parse, num, newId, CsvRows(text), IsoFormat), 0) == Ok(logs)
    ensures Import(parse, num, newId, text) == Ok(logs)
  {
  }

  /** Importing an export, with any date parser that reads ISO dates first,
      succeeds and gives back every measurement, in order: the same date,
      the readings rounded to the decimals written, missing readings still
      missing, the notes as their quoted cell, and the fresh id of its row. */
  lemma ExportImportRoundTrip(parse: string -> ParsedDate, huge: real -> string, num: string -> Option<real>, newId: nat -> string, logs: seq<DataLog>)
    requires IsoFirst(parse) && ReadsNumerals(num) && logs != []
    requires forall i :: 0 <= i < |logs| ==> Exportable(logs[i])
    requires forall i :: 0 <= i < |logs| ==> RoundTrips(logs[i])
    ensures Import(parse, num, newId, ExportCsv(huge, logs).value) == Ok(ReimportedAll(newId, logs))
  {
    var text := ExportCsv(huge, logs).value;
    ExportParsesBack(huge, logs);
    ExportedRowsIngest(parse, huge, num, newId, CsvRows(text), logs);
    ImportOfIsoRows(parse, num, newId, text, ReimportedAll(newId, logs));
  }

  /** The same of `handleImport` itself, with `attemptParseDateWithFormats`. */
  lemma ExportImportCsv(huge: real -> string, num: string -> Option<real>, newId: nat -> string, logs: seq<DataLog>)
    requires ReadsNumerals(num) && logs != []
    requires forall i :: 0 <= i < |logs| ==> Exportable(logs[i])
    requires forall i :: 0 <= i < |logs| ==> RoundTrips(logs[i])
    ensures ImportCsv(num, newId, ExportCsv(huge, logs).value) == Ok(ReimportedAll(newId, logs))
  {
    AttemptParseDateIsoFirst();
    ExportImportRoundTrip(AttemptParseDate, huge, num, newId, logs);
  }
}
