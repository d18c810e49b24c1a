/** `parseCsv`: lines split on '\n', cells on ',', no quoting; each data line
    becomes a record keyed by the trimmed, lower-cased header names. */
module CsvParse {
  import opened Text

  /** A parsed row: header name to trimmed cell. */
  type Row = map<string, string>

  /** `csvText.trim().split('\n')`. */
  function Lines(text: string): seq<string> {
    Split(Trim(text), '\n')
  }

  /** `lines[0].split(',').map(h => h.trim().toLowerCase())`. */
  function HeaderOf(line: string): seq<string> {
    var cells := Split(line, ',');
    seq(|cells|, j requires 0 <= j < |cells| => ToLower(Trim(cells[j])))
  }

  /** `values[j]?.trim() || ""`: a missing cell reads as "". */
  function CellAt(values: seq<string>, j: nat): string {
    if j < |values| then Trim(values[j]) else ""
  }

  /** The record the inner loop fills: one assignment per header name, in
      header order, so a repeated name keeps its last cell. */
  function RowFrom(header: seq<string>, values: seq<string>): Row {
    if header == [] then map[]
    else RowFrom(header[..|header| - 1], values)[header[|header| - 1] := CellAt(values, |header| - 1)]
  }

  /** One record per line after the first, each keyed by `header`. */
  function DataRows(lines: seq<string>, header: seq<string>): (rows: seq<Row>)
    requires |lines| >= 1
    ensures |rows| == |lines| - 1
  {
    seq(|lines| - 1, i requires 0 <= i < |lines| - 1 => RowFrom(header, Split(lines[i + 1], ',')))
  }

  /** The whole parse: no rows without a data line, else one row per data line. */
  function CsvRows(text: string): (rows: seq<Row>)
    ensures |Lines(text)| < 2 ==> rows == []
    ensures |Lines(text)| >= 2 ==> |rows| == |Lines(text)| - 1
  {
    var lines := Lines(text);
    if |lines| < 2 then [] else DataRows(lines, HeaderOf(lines[0]))
  }

  /** The nested loops of `parseCsv`. */
  method ParseCsv(csvText: string) returns (data: seq<Row>)
    ensures data == CsvRows(csvText)
  {
    var lines := Lines(csvText);
    if |lines| < 2 {
      return [];
    }
    var header := HeaderOf(lines[0]);
    data := RowsOf(lines, header);
    RowsAreDataRows(lines, header, data);
  }

  /** Rows built line by line are `DataRows`. */
  lemma RowsAreDataRows(lines: seq<string>, header: seq<string>, data: seq<Row>)
    requires |lines| >= 1 && |data| == |lines| - 1
    requires forall r :: 0 <= r < |data| ==> data[r] == RowFrom(header, Split(lines[r + 1], ','))
    ensures data == DataRows(lines, header)
  {
  }

  /** The outer loop: one record per line after the first. */
  method RowsOf(lines: seq<string>, header: seq<string>) returns (data: seq<Row>)
    requires |lines| >= 1
    ensures |data| == |lines| - 1
    ensures forall r :: 0 <= r < |data| ==> data[r] == RowFrom(header, Split(lines[r + 1], ','))
  {
    data := [];
    var i := 1;
    while i < |lines|
      invariant 1 <= i <= |lines|
      invariant |data| == i - 1
      invariant forall r :: 0 <= r < i - 1 ==> data[r] == RowFrom(header, Split(lines[r + 1], ','))
    {
      var row := RecordOf(header, Split(lines[i], ','));
      ghost var before := data;
      data := data + [row];
      assert forall r :: 0 <= r < |before| ==> data[r] == before[r];
      assert data[i - 1] == row;
      i := i + 1;
    }
  }

  /** The inner loop: `row[h] = values[j]?.trim() || ""` for each header name. */
  method RecordOf(header: seq<string>, values: seq<string>) returns (row: Row)
    ensures row == RowFrom(header, values)
  {
    row := map[];
    var j := 0;
    while j < |header|
      invariant 0 <= j <= |header|
      invariant row == RowFrom(header[..j], values)
    {
      row := row[header[j] := CellAt(values, j)];
      assert header[..j + 1][..j] == header[..j];
      j := j + 1;
    }
    assert header[..|header|] == header;
  }

  // ---- What each row holds ----

  /** A row's keys are exactly the header's names. */
  lemma {:induction false} RowFromKeys(header: seq<string>, values: seq<string>)
    ensures forall k :: k in RowFrom(header, values) <==> k in header
  {
    if header != [] {
      var n := |header| - 1;
      RowFromKeys(header[..n], values);
      assert header == header[..n] + [header[n]];
    }
  }

  /** A name's cell is the one in the column where it last appears. */
  lemma {:induction false} RowFromValue(header: seq<string>, values: seq<string>, j: nat)
    requires j < |header| && header[j] !in header[j + 1..]
    ensures header[j] in RowFrom(header, values) && RowFrom(header, values)[header[j]] == CellAt(values, j)
  {
    var n := |header| - 1;
    var front := header[..n];
    assert RowFrom(header, values) == RowFrom(front, values)[header[n] := CellAt(values, n)];
    if j < n {
      assert front[j + 1..] == header[j + 1..n];
      assert header[n] == header[j + 1..][n - j - 1];
      assert front[j] == header[j] != header[n];
      RowFromValue(front, values, j);
    }
  }

  /** Every row has the header's names as keys, a trimmed cell under each,
      and "" where the data line has fewer cells than the header. */
  lemma RowsFollowHeader(text: string, i: nat, j: nat)
    requires |Lines(text)| >= 2 && i < |CsvRows(text)|
    requires j < |HeaderOf(Lines(text)[0])|
    requires var header := HeaderOf(Lines(text)[0]); header[j] !in header[j + 1..]
    ensures var header := HeaderOf(Lines(text)[0]);
            var values := Split(Lines(text)[i + 1], ',');
            var row := CsvRows(text)[i];
            (forall k :: k in row <==> k in header) &&
            row[header[j]] == CellAt(values, j) &&
            (j >= |values| ==> row[header[j]] == "") &&
            (j < |values| ==> row[header[j]] == Trim(values[j]))
  {
    RowOfCsvRows(text, i);
    RowContents(HeaderOf(Lines(text)[0]), Split(Lines(text)[i + 1], ','), j);
  }

  /** Row `i` of the parse is the record of data line `i + 1` under the header. */
  lemma RowOfCsvRows(text: string, i: nat)
    requires |Lines(text)| >= 2 && i < |CsvRows(text)|
    ensures CsvRows(text)[i] == RowFrom(HeaderOf(Lines(text)[0]), Split(Lines(text)[i + 1], ','))
  {
  }

  /** The record of one line: the header's keys, and under a name's last
      column the trimmed cell, or "" past the end of the line. */
  lemma RowContents(header: seq<string>, values: seq<string>, j: nat)
    requires j < |header| && header[j] !in header[j + 1..]
    ensures var row := RowFrom(header, values);
            (forall k :: k in row <==> k in header) &&
            row[header[j]] == CellAt(values, j) &&
            (j >= |values| ==> row[header[j]] == "") &&
            (j < |values| ==> row[header[j]] == Trim(values[j]))
  {
    RowFromKeys(header, values);
    RowFromValue(header, values, j);
  }

  /** A line whose cells trim and lower-case to `keys` has `keys` as its header. */
  lemma HeaderOfNames(line: string, names: seq<string>, keys: seq<string>)
    requires Split(line, ',') == names && |names| == |keys|
    requires forall j :: 0 <= j < |names| ==> ToLower(Trim(names[j])) == keys[j]
    ensures HeaderOf(line) == keys
  {
  }

  /** Header names are trimmed and lower case. */
  lemma HeaderNormalized(line: string, j: nat)
    requires j < |HeaderOf(line)|
    ensures var h := HeaderOf(line)[j];
            ToLower(h) == h && (h == [] || (!IsSpace(h[0]) && !IsSpace(h[|h| - 1])))
  {
    var t := Trim(Split(line, ',')[j]);
    assert HeaderOf(line)[j] == ToLower(t);
    ToLowerIdempotent(t);
  }
}
