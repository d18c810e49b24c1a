/** `handleExport`: a header line, then one line per measurement, cells joined
    by commas and lines by newlines; the notes cell quoted with its quotes
    doubled. The download itself and the file name's clock are outside. */
module CsvExport {
  import opened Wrappers
  import opened Text
  import opened Calendar
  import opened Decimal
  import opened Records
  import opened CsvParse

  const Headers: seq<string> := ["Date", "Temperature_C", "Humidity_pc", "pH", "EC_dS_m", "AmbientTemperature_C", "Notes"]

  /** The record keys `parseCsv` makes of `Headers`: trimmed and lower-cased. */
  const HeaderKeys: seq<string> := ["date", "temperature_c", "humidity_pc", "ph", "ec_ds_m", "ambienttemperature_c", "notes"]

  /** A stored date `format` can render: a valid calendar date-time. */
  predicate Exportable(log: DataLog) {
    Valid(log.date)
  }

  // ---- Quoting the notes ----

  /** `s.replace(/"/g, '""')`. */
  function DoubleQuotes(s: string): string {
    if s == [] then []
    else (if s[0] == '"' then "\"\"" else [s[0]]) + DoubleQuotes(s[1..])
  }

  /** How a CSV reader takes the inside of a quoted field back: `""` is one quote. */
  function UndoubleQuotes(r: string): string {
    if r == [] then []
    else if |r| >= 2 && r[0] == '"' && r[1] == '"' then "\"" + UndoubleQuotes(r[2..])
    else [r[0]] + UndoubleQuotes(r[1..])
  }

  /** Doubling the quotes loses nothing: a CSV reader gets the notes back. */
  lemma {:induction false} UndoubleDoubleQuotes(s: string)
    ensures UndoubleQuotes(DoubleQuotes(s)) == s
  {
    if s != [] {
      UndoubleDoubleQuotes(s[1..]);
      var rest := DoubleQuotes(s[1..]);
      if s[0] == '"' {
        assert DoubleQuotes(s) == "\"\"" + rest;
        assert DoubleQuotes(s)[2..] == rest;
      } else {
        assert DoubleQuotes(s) == [s[0]] + rest;
        assert DoubleQuotes(s)[1..] == rest;
      }
    }
  }

  /** Doubling the quotes adds no other character and removes none. */
  lemma {:induction false} DoubleQuotesChars(s: string, c: char)
    requires c != '"'
    ensures c in DoubleQuotes(s) <==> c in s
  {
    if s != [] {
      DoubleQuotesChars(s[1..], c);
      assert s == [s[0]] + s[1..];
    }
  }

  /** `` `"${(log.notes || "").replace(/"/g, '""')}"` ``. */
  function NotesCell(notes: Option<string>): string {
    "\"" + DoubleQuotes(if notes.Some? then notes.value else "") + "\""
  }

  // ---- The cells and the text ----

  /** `x?.toFixed(f) ?? ""`. */
  function FixedOrEmpty(huge: real -> string, x: Option<real>, f: nat): string {
    if x.Some? then ToFixed(huge, x.value, f) else ""
  }

  /** Cell `j` of a measurement's line, under `Headers[j]`. */
  function ExportCell(huge: real -> string, log: DataLog, j: nat): string
    requires Exportable(log) && j < |Headers|
  {
    if j == 0 then FormatDateTime(log.date)
    else if j == 1 then ToFixed(huge, log.temperature, 1)
    else if j == 2 then ToFixed(huge, log.humidity, 1)
    else if j == 3 then FixedOrEmpty(huge, log.ph, 1)
    else if j == 4 then FixedOrEmpty(huge, log.ec, 2)
    else if j == 5 then FixedOrEmpty(huge, log.ambientTemperature, 1)
    else NotesCell(log.notes)
  }

  /** One measurement's cells, in the order of `Headers`. */
  function Cells(huge: real -> string, log: DataLog): (cells: seq<string>)
    requires Exportable(log)
    ensures |cells| == |Headers|
  {
    seq(|Headers|, j requires 0 <= j < |Headers| => ExportCell(huge, log, j))
  }

  /** One measurement's line: `[...].join(",")`. */
  function Line(huge: real -> string, log: DataLog): string
    requires Exportable(log)
  {
    Join(Cells(huge, log), ',')
  }

  /** The data lines: `logs.map(...)`, one line per measurement, in order. */
  function DataLines(huge: real -> string, logs: seq<DataLog>): (lines: seq<string>)
    requires forall i :: 0 <= i < |logs| ==> Exportable(logs[i])
    ensures |lines| == |logs|
  {
    seq(|logs|, q requires 0 <= q < |logs| => Line(huge, logs[q]))
  }

  /** The CSV text, or nothing when there is no measurement ("Sin Datos"). */
  function ExportCsv(huge: real -> string, logs: seq<DataLog>): (r: Option<string>)
    requires forall i :: 0 <= i < |logs| ==> Exportable(logs[i])
    ensures r.None? <==> logs == []
  {
    if logs == [] then None else Some(Join([Join(Headers, ',')] + DataLines(huge, logs), '\n'))
  }

  // ---- The download's file name ----

  predicate IsAsciiAlnum(c: char) {
    IsDigit(c) || ('a' <= c <= 'z') || ('A' <= c <= 'Z')
  }

  /** A character outside the Basic Multilingual Plane: two UTF-16 code units in JavaScript. */
  predicate IsAstral(c: char) {
    c as int > 0xFFFF
  }

  /** The length JavaScript gives a string: its number of UTF-16 code units. */
  function Utf16Length(s: string): (n: nat)
    ensures n >= |s|
    ensures (forall i :: 0 <= i < |s| ==> !IsAstral(s[i])) ==> n == |s|
  {
    if s == [] then 0 else (if IsAstral(s[0]) then 2 else 1) + Utf16Length(s[1..])
  }

  /** What the file-name regular expression makes of one character: a letter
      or digit lower-cased, anything else one '_' per code unit, since without
      the `u` flag `[^a-z0-9]` matches each half of a surrogate pair. */
  function SafeChar(c: char): string {
    if IsAsciiAlnum(c) then [LowerChar(c)] else if IsAstral(c) then "__" else "_"
  }

  /** `profileName.replace(/[^a-z0-9]/gi, '_').toLowerCase()`. */
  function SafeProfileName(name: string): (r: string)
    ensures |r| == Utf16Length(name)
    ensures forall i :: 0 <= i < |r| ==> (IsDigit(r[i]) || 'a' <= r[i] <= 'z' || r[i] == '_')
  {
    if name == [] then [] else SafeChar(name[0]) + SafeProfileName(name[1..])
  }

  /** Within the Basic Multilingual Plane the safe name keeps the length:
      letters and digits are lower-cased, every other character becomes '_'. */
  lemma {:induction false} SafeProfileNameBmp(name: string)
    requires forall i :: 0 <= i < |name| ==> !IsAstral(name[i])
    ensures |SafeProfileName(name)| == |name|
    ensures forall i :: 0 <= i < |name| ==> SafeProfileName(name)[i] == (if IsAsciiAlnum(name[i]) then LowerChar(name[i]) else '_')
  {
    if name != [] {
      SafeProfileNameBmp(name[1..]);
      var r := SafeProfileName(name);
      assert r == SafeChar(name[0]) + SafeProfileName(name[1..]);
      assert |SafeChar(name[0])| == 1;
      forall i | 0 <= i < |name|
        ensures r[i] == (if IsAsciiAlnum(name[i]) then LowerChar(name[i]) else '_')
      {
        if i > 0 {
          assert r[i] == SafeProfileName(name[1..])[i - 1];
          assert name[1..][i - 1] == name[i];
        }
      }
    }
  }

  /** A character outside the plane becomes two '_', as JavaScript writes it:
      "🌱" gives "__", and a name starting with it gives "__" and the rest's safe name. */
  lemma AstralBecomesTwoUnderscores(c: char, rest: string)
    requires IsAstral(c)
    ensures SafeProfileName([c]) == "__"
    ensures SafeProfileName([c] + rest) == "__" + SafeProfileName(rest)
  {
    assert [c][1..] == [];
    assert ([c] + rest)[0] == c && ([c] + rest)[1..] == rest;
  }

  /** A safe name is its own safe name. */
  lemma SafeProfileNameIdempotent(name: string)
    ensures SafeProfileName(SafeProfileName(name)) == SafeProfileName(name)
  {
    var r := SafeProfileName(name);
    forall i | 0 <= i < |r| ensures !IsAstral(r[i]) {
    }
    SafeProfileNameBmp(r);
    var rr := SafeProfileName(r);
    forall i | 0 <= i < |r| ensures rr[i] == r[i] {
      if r[i] != '_' {
        assert IsAsciiAlnum(r[i]);
      }
    }
  }

  /** `` `datos_composta_${safeProfileName}_${format(new Date(), "yyyyMMdd")}.csv` ``, with `today` the clock's date. */
  function ExportFileName(profileName: string, today: DateTime): (r: string)
    requires Valid(today)
  {
    "datos_composta_" + SafeProfileName(profileName) + "_" +
    Pad(EraYear(today.year), 4) + Pad(today.month, 2) + Pad(today.day, 2) + ".csv"
  }

  /** Where each part of a file name of that form stands. */
  lemma FileNameParts(head: string, name: string, y: string, mo: string, da: string)
    requires |y| == 4 && |mo| == 2 && |da| == 2
    ensures var r := head + name + "_" + y + mo + da + ".csv";
            var k := |head|;
            var d := k + |name| + 1;
            |r| == k + |name| + 1 + 8 + 4 &&
            r[..k] == head && r[k..k + |name|] == name && r[k + |name|] == '_' &&
            r[d..d + 4] == y && r[d + 4..d + 6] == mo && r[d + 6..d + 8] == da &&
            r[|r| - 4..] == ".csv"
  {
    var r := head + name + "_" + y + mo + da + ".csv";
    assert r == head + (name + ("_" + (y + (mo + (da + ".csv")))));
  }

  /** The file name is the prefix, the safe name, `_`, the year, month and
      day of `today` in eight digits, and `.csv`. */
  lemma ExportFileNameShape(profileName: string, today: DateTime)
    requires Valid(today) && EraYear(today.year) <= 9999
    ensures var r := ExportFileName(profileName, today);
            var k := |"datos_composta_"|;
            var n := Utf16Length(profileName);
            var d := k + n + 1;
            |r| == k + n + 1 + 8 + 4 &&
            r[..k] == "datos_composta_" &&
            r[k..k + n] == SafeProfileName(profileName) &&
            r[k + n] == '_' &&
            DigitsValue(r[d..d + 4]) == EraYear(today.year) &&
            DigitsValue(r[d + 4..d + 6]) == today.month &&
            DigitsValue(r[d + 6..d + 8]) == today.day &&
            r[|r| - 4..] == ".csv"
  {
    var ey := EraYear(today.year);
    var sn := SafeProfileName(profileName);
    assert |sn| == Utf16Length(profileName);
    assert ExportFileName(profileName, today) == "datos_composta_" + sn + "_" + Pad(ey, 4) + Pad(today.month, 2) + Pad(today.day, 2) + ".csv";
    PadWidth(ey, 4);
    assert today.month < Power10(2);
    assert today.day < Power10(2);
    PadWidth(today.month, 2);
    PadWidth(today.day, 2);
    PadValue(ey, 4);
    PadValue(today.month, 2);
    PadValue(today.day, 2);
    FileNameParts("datos_composta_", sn, Pad(ey, 4), Pad(today.month, 2), Pad(today.day, 2));
  }
}
