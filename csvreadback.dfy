/** Reading an export back with `parseCsv`: when no number reaches 10^21 in
    magnitude and no note holds a comma or a newline, every line of the
    export is one record whose cells are exactly the ones written. */
module CsvReadBack {
  import opened Wrappers
  import opened Text
  import opened Calendar
  import opened Decimal
  import opened Records
  import opened CsvParse
  import opened CsvExport
  import opened CsvHeaderKeys

  /** A cell `parseCsv` reads back as written: no comma, no newline, nothing to trim. */
  predicate CleanCell(c: string) {
    ',' !in c && '\n' !in c && (c == [] || (!IsSpace(c[0]) && !IsSpace(c[|c| - 1])))
  }

  /** Where `toFixed` writes a plain numeral. */
  predicate InRange(x: real) { -Threshold < x < Threshold }

  predicate OptionalInRange(x: Option<real>) { x.Some? ==> InRange(x.value) }

  /** A measurement whose export `parseCsv` reads back cell by cell: numbers
      below 10^21 in magnitude, notes without commas or newlines. */
  predicate Reimportable(log: DataLog) {
    Exportable(log) && InRange(log.temperature) && InRange(log.humidity) &&
    OptionalInRange(log.ph) && OptionalInRange(log.ec) && OptionalInRange(log.ambientTemperature) &&
    (log.notes.Some? ==> ',' !in log.notes.value && '\n' !in log.notes.value)
  }

  lemma FixedClean(huge: real -> string, x: real, f: nat)
    requires InRange(x)
    ensures CleanCell(ToFixed(huge, x, f))
  {
    ToFixedChars(huge, x, f);
  }

  lemma OptionalClean(huge: real -> string, x: Option<real>, f: nat)
    requires OptionalInRange(x)
    ensures CleanCell(FixedOrEmpty(huge, x, f))
  {
    if x.Some? {
      FixedClean(huge, x.value, f);
    }
  }

  lemma DateCellClean(d: DateTime)
    requires Valid(d)
    ensures CleanCell(FormatDateTime(d))
  {
    var s := FormatDateTime(d);
    var y := Pad(EraYear(d.year), 4);
    assert s[0] == y[0];
    assert forall i :: 0 <= i < |s| ==> IsDigit(s[i]) || s[i] == '-' || s[i] == ' ' || s[i] == ':';
  }

  lemma NotesCellClean(notes: Option<string>)
    requires notes.Some? ==> ',' !in notes.value && '\n' !in notes.value
    ensures CleanCell(NotesCell(notes))
  {
    var n := if notes.Some? then notes.value else "";
    DoubleQuotesChars(n, ',');
    DoubleQuotesChars(n, '\n');
  }

  /** Every cell of a reimportable measurement is clean. */
  lemma CellsClean(huge: real -> string, log: DataLog)
    requires Reimportable(log)
    ensures forall j :: 0 <= j < |Headers| ==> CleanCell(Cells(huge, log)[j])
  {
    var cells := Cells(huge, log);
    forall j | 0 <= j < |Headers| ensures CleanCell(cells[j]) {
      assert cells[j] == ExportCell(huge, log, j);
      if j == 0 {
        DateCellClean(log.date);
      } else if j == 1 {
        FixedClean(huge, log.temperature, 1);
      } else if j == 2 {
        FixedClean(huge, log.humidity, 1);
      } else if j == 3 {
        OptionalClean(huge, log.ph, 1);
      } else if j == 4 {
        OptionalClean(huge, log.ec, 2);
      } else if j == 5 {
        OptionalClean(huge, log.ambientTemperature, 1);
      } else {
        NotesCellClean(log.notes);
      }
    }
  }

  /** A reimportable measurement's line splits back into its cells. */
  lemma LineSplits(huge: real -> string, log: DataLog)
    requires Reimportable(log)
    ensures Split(Line(huge, log), ',') == Cells(huge, log)
  {
    CellsClean(huge, log);
    SplitOfJoin(Cells(huge, log), ',');
  }

  /** One line, ending in a quote. */
  predicate QuotedLine(s: string) {
    '\n' !in s && |s| >= 1 && s[|s| - 1] == '"'
  }

  /** A reimportable measurement's line is one line ending in a quote. */
  lemma LineShape(huge: real -> string, log: DataLog)
    requires Reimportable(log)
    ensures QuotedLine(Line(huge, log))
  {
    var cells := Cells(huge, log);
    CellsClean(huge, log);
    JoinFree(cells, ',', '\n');
    assert cells[|cells| - 1] == NotesCell(log.notes);
    JoinEnd(cells, ',');
  }

  /** Lines without a newline, at least one, the last ending in a quote. */
  predicate DataLineShape(data: seq<string>) {
    |data| >= 1 && (forall q :: 0 <= q < |data| ==> '\n' !in data[q]) &&
    |data[|data| - 1]| >= 1 && data[|data| - 1][|data[|data| - 1]| - 1] == '"'
  }

  lemma {:induction false} QuotedLines(data: seq<string>)
    requires |data| >= 1 && forall q :: 0 <= q < |data| ==> QuotedLine(data[q])
    ensures DataLineShape(data)
  {
    assert QuotedLine(data[|data| - 1]);
  }

  /** The data lines are lines, the last one ending in a quote. */
  lemma DataLinesShape(huge: real -> string, logs: seq<DataLog>)
    requires logs != [] && forall i :: 0 <= i < |logs| ==> Exportable(logs[i])
    requires forall i :: 0 <= i < |logs| ==> Reimportable(logs[i])
    ensures DataLineShape(DataLines(huge, logs))
  {
    var data := DataLines(huge, logs);
    forall q | 0 <= q < |data| ensures QuotedLine(data[q]) {
      LineShape(huge, logs[q]);
    }
    QuotedLines(data);
  }

  /** The header line splits back into the headers. */
  lemma HeaderLineSplits()
    ensures Split(Join(Headers, ','), ',') == Headers
  {
    assert forall j :: 0 <= j < |Headers| ==> ',' !in Headers[j];
    SplitOfJoin(Headers, ',');
  }

  /** The header line is one line, starting with a letter. */
  lemma HeaderLineShape()
    ensures '\n' !in Join(Headers, ',') && Join(Headers, ',')[0] == 'D'
  {
    assert forall j :: 0 <= j < |Headers| ==> '\n' !in Headers[j];
    JoinFree(Headers, ',', '\n');
    JoinEnds(Headers, ',');
  }

  /** `parseCsv` turns the header line into `HeaderKeys`. */
  lemma HeaderLineKeys()
    ensures HeaderOf(Join(Headers, ',')) == HeaderKeys
  {
    HeaderLineSplits();
    HeaderKeysOfHeaders();
    HeaderOfNames(Join(Headers, ','), Headers, HeaderKeys);
  }

  predicate Distinct(keys: seq<string>) {
    forall i, j :: 0 <= i < j < |keys| ==> keys[i] != keys[j]
  }

  /** No two headers lower-case to the same key, so no cell is overwritten. */
  lemma HeaderKeysDistinct()
    ensures Distinct(HeaderKeys)
  {
  }

  /** Lines without newlines whose text starts and ends with a non-space
      are the lines `parseCsv` finds in their join. */
  lemma LinesOfJoin(lines: seq<string>)
    requires |lines| >= 1 && |lines[0]| >= 1 && |lines[|lines| - 1]| >= 1
    requires !IsSpace(lines[0][0]) && !IsSpace(lines[|lines| - 1][|lines[|lines| - 1]| - 1])
    requires forall i :: 0 <= i < |lines| ==> '\n' !in lines[i]
    ensures Lines(Join(lines, '\n')) == lines
  {
    JoinEnds(lines, '\n');
    TrimNoSpace(Join(lines, '\n'));
    SplitOfJoin(lines, '\n');
  }

  /** A first line and further lines, none with a newline, the first
      starting with a letter and the last ending in a quote, are the lines
      `parseCsv` finds in their join. */
  lemma LinesOfHeadAndData(head: string, data: seq<string>)
    requires '\n' !in head && |head| >= 1 && head[0] == 'D'
    requires DataLineShape(data)
    ensures Lines(Join([head] + data, '\n')) == [head] + data
  {
    var lines := [head] + data;
    assert forall i :: 1 <= i < |lines| ==> lines[i] == data[i - 1];
    LinesOfJoin(lines);
  }

  /** The text's lines are the header line and the data lines. */
  lemma ExportLines(huge: real -> string, logs: seq<DataLog>)
    requires logs != [] && forall i :: 0 <= i < |logs| ==> Exportable(logs[i])
    requires forall i :: 0 <= i < |logs| ==> Reimportable(logs[i])
    ensures Lines(ExportCsv(huge, logs).value) == [Join(Headers, ',')] + DataLines(huge, logs)
  {
    DataLinesShape(huge, logs);
    HeaderLineShape();
    LinesOfHeadAndData(Join(Headers, ','), DataLines(huge, logs));
  }

  /** A record keyed by exactly `keys`, holding `cells` in their order. */
  ghost predicate RowHolds(row: Row, keys: seq<string>, cells: seq<string>) {
    (forall k :: k in row <==> k in keys) && |cells| == |keys| &&
    forall j :: 0 <= j < |keys| ==> row[keys[j]] == cells[j]
  }

  /** Clean cells joined by commas read back under distinct keys as themselves. */
  lemma RowOfCells(keys: seq<string>, cells: seq<string>)
    requires Distinct(keys) && |cells| == |keys| >= 1 && forall j :: 0 <= j < |cells| ==> CleanCell(cells[j])
    ensures RowHolds(RowFrom(keys, Split(Join(cells, ','), ',')), keys, cells)
  {
    SplitOfJoin(cells, ',');
    RowFromKeys(keys, cells);
    forall j | 0 <= j < |keys| ensures RowFrom(keys, cells)[keys[j]] == cells[j] {
      assert keys[j] !in keys[j + 1..] by {
        forall i | j + 1 <= i < |keys| ensures keys[i] != keys[j] {}
      }
      RowFromValue(keys, cells, j);
      TrimNoSpace(cells[j]);
    }
  }

  /** The record `parseCsv` makes of one measurement's line under `HeaderKeys`. */
  lemma RowOfLine(huge: real -> string, log: DataLog, keys: seq<string>)
    requires Reimportable(log) && keys == HeaderKeys
    ensures RowHolds(RowFrom(keys, Split(Line(huge, log), ',')), keys, Cells(huge, log))
  {
    CellsClean(huge, log);
    HeaderKeysDistinct();
    RowOfCells(keys, Cells(huge, log));
  }

  /** A text whose lines are a header line with header `keys` and then
      data lines parses as those lines under `keys`. */
  lemma RowsOfLines(text: string, head: string, data: seq<string>, keys: seq<string>)
    requires Lines(text) == [head] + data && data != [] && HeaderOf(head) == keys
    ensures CsvRows(text) == DataRows([head] + data, keys)
  {
    assert Lines(text)[0] == head;
  }

  /** Under `keys`, the lines after the first become one record each, in order. */
  lemma DataRowsOfLines(head: string, data: seq<string>, keys: seq<string>)
    ensures |DataRows([head] + data, keys)| == |data|
    ensures forall q :: 0 <= q < |data| ==> DataRows([head] + data, keys)[q] == RowFrom(keys, Split(data[q], ','))
  {
    var lines := [head] + data;
    assert forall q :: 0 <= q < |data| ==> lines[q + 1] == data[q];
  }

  /** `parseCsv` reads an export back: one record per measurement, holding
      under each lower-cased header exactly the cell written for it. */
  lemma ExportParsesBack(huge: real -> string, logs: seq<DataLog>)
    requires logs != [] && forall i :: 0 <= i < |logs| ==> Exportable(logs[i])
    requires forall i :: 0 <= i < |logs| ==> Reimportable(logs[i])
    ensures |CsvRows(ExportCsv(huge, logs).value)| == |logs|
    ensures forall q :: 0 <= q < |logs| ==> RowHolds(CsvRows(ExportCsv(huge, logs).value)[q], HeaderKeys, Cells(huge, logs[q]))
  {
    var text := ExportCsv(huge, logs).value;
    var data := DataLines(huge, logs);
    ExportLines(huge, logs);
    HeaderLineKeys();
    RowsOfLines(text, Join(Headers, ','), data, HeaderKeys);
    DataRowsOfLines(Join(Headers, ','), data, HeaderKeys);
    forall q | 0 <= q < |logs| ensures RowHolds(CsvRows(text)[q], HeaderKeys, Cells(huge, logs[q])) {
      RowOfLine(huge, logs[q], HeaderKeys);
    }
  }
}
