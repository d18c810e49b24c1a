# Compost monitor: a Dafny model of its data core

The application keeps compost-pile profiles in the browser. Each profile holds
measurements (date, temperature, humidity, optional pH, EC, ambient temperature
and notes), photos, and a carbon-to-nitrogen (C:N) estimate built from a list
of materials. This project models the logic behind that:

- **CSV export and import** (`CsvControls.tsx`):
  - `parseCsv`;
  - `attemptParseDateWithFormats`: ISO 8601 first, then thirty date-fns
    patterns, with the day/month plausibility check;
  - `handleImport`: the date format is deduced by a vote over a sample of at
    most ten rows, each row is then ingested, and the whole import fails at the
    first bad row;
  - `handleExport`: building the lines and the file name.
- **The profile view** (`CompostProfileView.tsx`):
  - `parseCNRatio`;
  - the material list handlers;
  - the C:N calculation loop;
  - adding, updating and deleting measurements and photos;
  - merging an import, newest first.
- **The profile manager** (`CompostProfileManager.tsx`):
  - a class holding the profile list, the selected tab and the profile waiting
    for its deletion to be confirmed;
  - create, delete (which re-selects the tab) and update;
  - the effect that initialises the tab;
  - `getRandomColor`.
- **The measurement form** (`DataLogForm.tsx`): the schema's range rules and
  `processSubmit`'s handling of the optional fields.

### How values are modelled

- **Numbers.** A JavaScript number is an `Option<real>`, where `None` is NaN.
  These are parameters of the model (oracles), not modelled behaviour:
  - `num` is `parseFloat`;
  - `number` is `Number()`;
  - `huge` is `Number::toString` for magnitudes of 10^21 and more.
- **`toFixed`.** Below 10^21 it is modelled digit by digit on exact reals,
  following section 21.1.3.3 of ECMA-262.
- **Dates.** A `Date` is a calendar date-time to the second.
  - `parseISO`, date-fns `parse` and `format` are written out for the forms the
    code uses.
  - The reference date date-fns uses for two-digit years has the fixed year
    2025.
- **Fresh values.** `crypto.randomUUID()` is a parameter: `id`, or `newId(k)`
  for the k-th imported row. `Math.random()` is the sequence `draws`. The
  clock is `today` or `createdAt`.
- **The flexible date parser.** `Import` takes `attemptParseDateWithFormats` as
  a parameter, `parse`, so lemmas can be stated against its contract.
  `ImportCsv` plugs in the real parser.
- **Export needs valid dates.** `CsvExport.ExportCsv` requires every measurement's date to be valid, the case in which date-fns `format` (CsvControls.tsx:116) does not throw. Every date the program stores is valid: the form's `z.date()` and `CsvImport.ImportCsvDatesValid` for imports.

### Export, then import

`CsvRoundTrip.ExportImportCsv` proves that importing an export gives back
every measurement, in order. This holds when:
- every date is of a year from 1 to 9999;
- no number reaches 10^21;
- no notes contain a comma or a newline;
- `parseFloat` reads the numerals `toFixed` writes at their value.

Each measurement comes back with:
- the same date;
- each reading rounded as `toFixed` rounds it;
- missing readings still missing;
- a fresh id.

A date of year 0 does not come back. date-fns `format` writes the year of the
era, so year 0 (1 BC) is written "0001" and read back as year 1, or as an
invalid date on 29 February (`Iso.YearZeroReadsAsYearOne`). `parseISO` accepts
such a year in "0000-06-15", so an import can store one.

The notes do not come back as they were. Export wraps them in quotes and
doubles any quote inside (line 122). `parseCsv` never removes the quotes, so
the imported notes are the quoted cell. A note containing a comma would also
be cut apart at the comma.

### How the winning format is chosen

The comment at line 174 says the format with the highest count in the sample
is chosen. The `reduce` at line 175 walks the keys in the order of their first
vote and keeps the **later** key unless the earlier key has strictly more
votes, so among tied formats the one first seen last wins. The model follows
the code:
- `CsvImport.ReduceIsLastMaximum`;
- `CsvImport.DeduceFromVotesTieBreak`.

## Model

| member | source | states |
|---|---|---|
| CsvParse.ParseCsv | src/components/compost/CsvControls.tsx:20-36 | The nested loops compute `CsvRows`: no rows when the trimmed text has fewer than two lines, otherwise one record per data line, keyed by the header. |
| CsvParse.RowsOf | src/components/compost/CsvControls.tsx:27-34 | The outer loop gives one record per line after the first, in order, each filled from that line's comma-split cells. |
| CsvParse.RecordOf | src/components/compost/CsvControls.tsx:29-32 | The inner loop builds the record that maps each header name to its trimmed cell, with "" for a missing cell. |
| CsvParse.CsvRows | src/components/compost/CsvControls.tsx:21-22 | No data line gives no rows; otherwise there are as many rows as lines after the header. |
| CsvParse.RowFromKeys | src/components/compost/CsvControls.tsx:30-31 | A record's keys are exactly the header's names. |
| CsvParse.RowFromValue | src/components/compost/CsvControls.tsx:30-31 | A name's cell comes from the last column carrying that name, because later assignments overwrite earlier ones. |
| CsvParse.RowsFollowHeader | src/components/compost/CsvControls.tsx:24-33 | Every row has exactly the header names as keys. Under a name it holds the trimmed cell of that column in its line, or "" when the line is shorter. |
| CsvParse.HeaderNormalized | src/components/compost/CsvControls.tsx:24 | Header names come out trimmed of all the white space JavaScript `trim` removes, and with A to Z lower-cased. |
| CsvParse.HeaderOfNames | src/components/compost/CsvControls.tsx:24 | A line whose cells trim and lower-case to `keys` has `keys` as its header. |
| Iso.ParseIso | src/components/compost/CsvControls.tsx:49-50 | `parseISO` followed by `isValid` on the forms modelled, which all begin with a four-digit year: a result is always a valid date of a year from 0 to 9999. |
| Iso.FormatDateTimeIsIso | src/components/compost/CsvControls.tsx:116 | What export writes as the date, `parseISO` reads back with the era year `format` wrote: the same date from year 1 on, and no date when the era year lacks the day. |
| Iso.YearZeroReadsAsYearOne | src/components/compost/CsvControls.tsx:116 | A year-0 date is written with the year "0001" and does not read back as itself: it reads as year 1, or as an invalid date on 29 February. |
| Calendar.TimestampOrdersChronologically | src/components/compost/CompostProfileView.tsx:194 | The `getTime()` stand-in orders valid dates chronologically, and two dates map to the same value only if they are equal. |
| Calendar.NormalizeTwoDigitYear | src/components/compost/CsvControls.tsx:63-65 | A two-digit year is the year with those last two digits within 50 years of the reference year. |
| DatePatterns.ParsePattern | src/components/compost/CsvControls.tsx:72-73 | The result of `parse` then `isValid` is always a valid date. |
| DatePatterns.TokenizeRender | src/components/compost/CsvControls.tsx:53-67 | Tokenizing the format string of a well-formed token list returns that list. |
| DatePatterns.CandidateTokenize | src/components/compost/CsvControls.tsx:53-67 | Each of the thirty format strings tokenizes into the token list the model gives it. |
| CsvDates.AttemptParseDateWithFormats | src/components/compost/CsvControls.tsx:45-98 | The loop, with its `continue`s and early return, computes `AttemptParseDate`. |
| CsvDates.AttemptParseDate | src/components/compost/CsvControls.tsx:46-50 | Blank input gives no date and no format. An ISO date wins as "ISO". A date is returned exactly when a format is, and it is valid. |
| CsvDates.FirstAcceptedIsFirst | src/components/compost/CsvControls.tsx:71-95 | No format is returned exactly when no candidate is accepted. A returned format is accepted, and no earlier one is. |
| CsvDates.CheckNeverRejects | src/components/compost/CsvControls.tsx:74-92 | The plausibility check never rejects a candidate that parsed: a candidate is accepted exactly when it parses. |
| CsvDates.AttemptParseDatePicksFirstParsing | src/components/compost/CsvControls.tsx:71-97 | For a non-blank, non-ISO string, the result is the first candidate format that parses, with its date. Otherwise there is nothing. |
| CsvDates.ParseIntOfDigits | src/components/compost/CsvControls.tsx:80-81 | `parseInt` reads a run of decimal digits as its value. |
| CsvDates.ReplaceNonWord | src/components/compost/CsvControls.tsx:78 | Each character that is not a word character becomes '-'; everything else is kept. |
| CsvImport.FirstNonEmptySpec | src/components/compost/CsvControls.tsx:162 | `row.a \|\| row.b \|\| ...` is "" exactly when every listed cell is empty; otherwise it is the first non-empty cell. |
| CsvImport.AttemptParseDateContract | src/components/compost/CsvControls.tsx:45-98 | The date parser returns only "ISO" or one of the candidate format strings, together with a valid date. |
| CsvImport.TallySample | src/components/compost/CsvControls.tsx:158-170 | The sample loop builds `TallyOf` the rows' votes: `formatCounts`, its keys in insertion order, and the parsed count. |
| CsvImport.TallyRow | src/components/compost/CsvControls.tsx:161-168 | One pass of the loop body adds the row's vote: nothing when the date is blank or unparsed, otherwise one more for its format and for the parsed count. |
| CsvImport.CountFormat | src/components/compost/CsvControls.tsx:166-167 | One counted vote adds one to its format and to the parsed count, appending the format as a key the first time. |
| CsvImport.TallyCounts | src/components/compost/CsvControls.tsx:158-170 | `formatCounts[f]` is the number of votes for `f`. The keys are distinct and are exactly the formats voted for. |
| CsvImport.TallyParsed | src/components/compost/CsvControls.tsx:159-173 | `successfullyParsedSampleCount` is the number of votes cast. There are keys exactly when it is positive. |
| CsvImport.TallyOrder | src/components/compost/CsvControls.tsx:173-175 | The keys of `formatCounts` stand in the order of each format's first vote. |
| CsvImport.ReduceIsLastMaximum | src/components/compost/CsvControls.tsx:175 | The `reduce` returns a key of greatest count, and the last such key in key order. |
| CsvImport.SampleSize | src/components/compost/CsvControls.tsx:156 | `Math.min(10, n)`: at most ten and at most n, and at least one when there are rows. |
| CsvImport.DeduceFromVotesFails | src/components/compost/CsvControls.tsx:176-188 | Deduction fails exactly when no sample row parsed, and it fails with the "not recognised" error. |
| CsvImport.DeduceFromVotesWinner | src/components/compost/CsvControls.tsx:173-175 | When some row parsed, the deduced format was voted for and has the most votes. |
| CsvImport.DeduceFromVotesTieBreak | src/components/compost/CsvControls.tsx:175 | Among formats tied with the winner, the winner's first vote is the latest. |
| CsvImport.DeducedFormatIsCandidate | src/components/compost/CsvControls.tsx:172-188 | The deduced format is "ISO" or one of the candidate format strings. |
| CsvImport.RowDate | src/components/compost/CsvControls.tsx:203-220 | A row is dated by the deduced format when that format reads the cell, and otherwise by the flexible parser. |
| CsvImport.IngestRowAccepts | src/components/compost/CsvControls.tsx:193-227 | A row is accepted exactly when it has a non-blank date cell that reads as a date, a temperature and a humidity. Every error carries the row's line in the file (index + 2), and the missing-date error is reported exactly when the date cell is blank. |
| CsvImport.IngestRowValue | src/components/compost/CsvControls.tsx:223-244 | An accepted row becomes the measurement of its own cells, with the fresh id and a valid date. |
| CsvImport.MeasurementPh | src/components/compost/CsvControls.tsx:230-240 | A measurement has a pH exactly when the `ph` cell is non-empty and reads as a number. |
| CsvImport.MeasurementEc | src/components/compost/CsvControls.tsx:231-241 | EC is read from `ec_ds_m` when that cell is non-empty, otherwise from `ce (ds/m)`. |
| CsvImport.MeasurementNotes | src/components/compost/CsvControls.tsx:243 | The notes are the `notes` cell when it is non-empty, otherwise the `notas` cell. |
| CsvImport.CollectOutcome | src/components/compost/CsvControls.tsx:193-251 | All or nothing: success means every row succeeded, with one measurement per row in order. A failure is the first failing row's error. |
| CsvImport.HandleImport | src/components/compost/CsvControls.tsx:147-247 | The handler, with its loops, computes `Import`. |
| CsvImport.ImportCsvErrors | src/components/compost/CsvControls.tsx:149-188 | The import fails as empty exactly when the text has no data line. The "undetermined" error cannot occur. |
| CsvImport.ImportCsvSucceeds | src/components/compost/CsvControls.tsx:193-247 | A successful import gives one measurement per data line, in order, each the accepted reading of its row. |
| CsvImport.ImportCsvFailsAtFirstBadRow | src/components/compost/CsvControls.tsx:193-251 | An import that reaches the rows and fails reports the first row that fails. |
| CsvImport.ImportCsvDatesValid | src/components/compost/CsvControls.tsx:237 | Every imported measurement carries a valid date. |
| CsvExport.ExportCsv | src/components/compost/CsvControls.tsx:105-126 | There is no file exactly when there are no measurements. |
| CsvExport.UndoubleDoubleQuotes | src/components/compost/CsvControls.tsx:122 | Doubling the quotes loses nothing: a CSV reader undoing it gets the notes back. |
| CsvExport.DoubleQuotesChars | src/components/compost/CsvControls.tsx:122 | A character other than a quote occurs in the doubled text exactly when it occurs in the original. |
| CsvExport.SafeProfileName | src/components/compost/CsvControls.tsx:131 | The safe name has the name's length in UTF-16 code units, and holds only lower-case ASCII letters, digits and '_'. |
| CsvExport.SafeProfileNameBmp | src/components/compost/CsvControls.tsx:131 | For a name inside the Basic Multilingual Plane, the length is kept, ASCII letters and digits are kept lower-cased, and every other character becomes '_'. |
| CsvExport.AstralBecomesTwoUnderscores | src/components/compost/CsvControls.tsx:131 | Without the `u` flag, a character outside the Basic Multilingual Plane matches as its two surrogates and becomes "__", alone or at the head of a name ("🌱" gives "__"). |
| CsvExport.SafeProfileNameIdempotent | src/components/compost/CsvControls.tsx:131 | A safe name is its own safe name. |
| CsvExport.ExportFileNameShape | src/components/compost/CsvControls.tsx:132 | The file name is the prefix "datos_composta_", the safe name, '_', the era year, month and day of the date in eight digits, and ".csv". |
| CsvHeaderKeys.HeaderKeysOfHeaders | src/components/compost/CsvControls.tsx:111 | Each exported header, trimmed and lower-cased, gives the key the import looks up. |
| CsvReadBack.CellsClean | src/components/compost/CsvControls.tsx:115-123 | Every cell of a reimportable measurement is free of commas, newlines and surrounding spaces. |
| CsvReadBack.LineSplits | src/components/compost/CsvControls.tsx:123 | A reimportable measurement's line splits back into its cells. |
| CsvReadBack.HeaderLineKeys | src/components/compost/CsvControls.tsx:24 | `parseCsv` turns the header line into the lower-case keys. |
| CsvReadBack.HeaderKeysDistinct | src/components/compost/CsvControls.tsx:111 | No two headers give the same key, so no cell is overwritten. |
| CsvReadBack.ExportLines | src/components/compost/CsvControls.tsx:126 | The export's text splits back into the header line and the data lines. |
| CsvReadBack.ExportParsesBack | src/components/compost/CsvControls.tsx:20-36 | `parseCsv` on an export gives one record per measurement, in order, holding that measurement's cells under the header keys. |
| CsvRoundTrip.AttemptParseDateIsoFirst | src/components/compost/CsvControls.tsx:46-50 | The date parser returns an ISO reading of any non-blank string that has one. |
| CsvRoundTrip.DateReads | src/components/compost/CsvControls.tsx:116 | For a year from 1 to 9999, the exported date cell reads back as the same date, both through `parseISO` and through the deduced "ISO" format. |
| CsvRoundTrip.ExportedRowIngests | src/components/compost/CsvControls.tsx:161-244 | The record of an exported measurement votes "ISO" and is ingested as that measurement, with its readings rounded and a fresh id. |
| CsvRoundTrip.UnanimousRows | src/components/compost/CsvControls.tsx:156-188 | When every sample row votes for the same format, that format is deduced. |
| CsvRoundTrip.ExportImportRoundTrip | src/components/compost/CsvControls.tsx:105-247 | For any date parser that reads ISO first, importing an export of measurements dated in the years 1 to 9999 gives each measurement back in order. Dates are kept, readings are rounded as `toFixed` rounds them, missing readings stay missing, the notes are returned as the quoted cell, and ids are fresh. |
| CsvRoundTrip.ExportImportCsv | src/components/compost/CsvControls.tsx:105-247 | The same with `attemptParseDateWithFormats` itself. |
| Decimal.ToFixedValue | src/components/compost/CsvControls.tsx:117-121 | Below 10^21, `toFixed(f)` writes a numeral whose value is the input rounded to f decimals. |
| Decimal.RoundedError | src/components/compost/CsvControls.tsx:117-121 | The rounding is within half a unit of the last decimal place. |
| Decimal.ToFixedChars | src/components/compost/CsvControls.tsx:117-121 | Below 10^21, `toFixed` writes a non-empty string of digits, points and minus signs that ends in a digit and starts with a digit or a minus sign. |
| CarbonNitrogen.ParseCNRatioRange | src/components/compost/CompostProfileView.tsx:37-43 | "X-Y:1" reads as the midpoint of X and Y. |
| CarbonNitrogen.ParseCNRatioSingle | src/components/compost/CompostProfileView.tsx:37-44 | "Z:1" reads as `Number(Z)`. |
| CarbonNitrogen.FindMaterial | src/components/compost/CompostProfileView.tsx:131 | `find` gives nothing exactly when no row has the name; otherwise it gives the first row with that name. |
| CarbonNitrogen.AddMaterialRejects | src/components/compost/CompostProfileView.tsx:81-84 | The list is unchanged exactly when there is no name or the quantity is not a positive number. |
| CarbonNitrogen.AddMaterialAccepts | src/components/compost/CompostProfileView.tsx:85-98 | An accepted material already listed has its quantity increased in place; a new one is appended. |
| CarbonNitrogen.AddMaterialKeepsList | src/components/compost/CompostProfileView.tsx:80-101 | Adding keeps the names unique and every quantity a non-negative number. |
| CarbonNitrogen.AddMaterialAsWrittenAddsNaN | src/components/compost/CompostProfileView.tsx:81-96 | As written, a quantity that reads as NaN is added as a NaN entry. |
| CarbonNitrogen.AddToNamed | src/components/compost/CompostProfileView.tsx:88-90 | Entries with the name get the quantity added; every other entry is kept. |
| CarbonNitrogen.RemoveMaterialSpec | src/components/compost/CompostProfileView.tsx:103-108 | Removing drops exactly the entries with that name and keeps the others. With unique names, one entry goes. |
| CarbonNitrogen.RemoveUndoesAdd | src/components/compost/CompostProfileView.tsx:94-106 | Removing a material just added under a new name gives the list back. |
| CarbonNitrogen.Clamp | src/components/compost/CompostProfileView.tsx:115 | NaN or a negative quantity becomes 0; a non-negative number is kept. |
| CarbonNitrogen.SetQuantity | src/components/compost/CompostProfileView.tsx:110-118 | Entries with the name take the clamped quantity; every other entry is unchanged. |
| CarbonNitrogen.SetQuantityKeepsList | src/components/compost/CompostProfileView.tsx:110-118 | Setting a quantity keeps the names and every quantity a number, and doing it twice is the same as doing it once. |
| CarbonNitrogen.CalculateCNRatio | src/components/compost/CompostProfileView.tsx:120-147 | The `forEach` loop and the final branches compute the displayed text of `Outcome`. |
| CarbonNitrogen.NitrogenTotal | src/components/compost/CompostProfileView.tsx:130-139 | Total nitrogen is never negative. It is 0 exactly when no material is in the table with a positive quantity. |
| CarbonNitrogen.OutcomeWithoutContribution | src/components/compost/CompostProfileView.tsx:121-142 | No materials shows ""; materials none of which contributes show the "N/A" text. |
| CarbonNitrogen.RatioBetween | src/components/compost/CompostProfileView.tsx:130-144 | The ratio is a weighted average: it lies between the smallest and largest C value of the materials that contribute. |
| CarbonNitrogen.CarbonTotalBounds | src/components/compost/CompostProfileView.tsx:130-137 | C values between lo and hi put total carbon between lo and hi times total nitrogen. |
| CarbonNitrogen.TotalsAppend | src/components/compost/CompostProfileView.tsx:130-137 | The totals of a list are the sums of the totals of its parts, so the order of materials does not matter. |
| ProfileView.AddDataLog | src/components/compost/CompostProfileView.tsx:171-174 | The new measurement is appended under the fresh id; the rest of the profile is unchanged. |
| ProfileView.UpdateDataLogSpec | src/components/compost/CompostProfileView.tsx:176-178 | Only the measurement with the matching id is replaced, in place. Length and ids are kept, and updating twice is the same as once. |
| ProfileView.DeleteDataLogSpec | src/components/compost/CompostProfileView.tsx:180-182 | Exactly the measurements with that id are removed and the others are kept. With unique ids, one goes. |
| ProfileView.DeleteUndoesAddDataLog | src/components/compost/CompostProfileView.tsx:171-182 | Deleting a measurement just added under a fresh id gives the profile back. |
| ProfileView.AddDataLogKeepsIdsUnique | src/components/compost/CompostProfileView.tsx:171-174 | Adding under a fresh id keeps the ids unique. |
| ProfileView.AddImage | src/components/compost/CompostProfileView.tsx:184-186 | The new photo is appended under the fresh id; the rest of the profile is unchanged. |
| ProfileView.DeleteImageSpec | src/components/compost/CompostProfileView.tsx:188-190 | Exactly the photos with that id are removed, the others keep their order, and the rest of the profile is unchanged. |
| ProfileView.DeleteUndoesAddImage | src/components/compost/CompostProfileView.tsx:184-190 | Deleting a photo just added under a fresh id gives the profile back. |
| ProfileView.WithFreshIds | src/components/compost/CompostProfileView.tsx:193 | The k-th imported measurement takes the fresh id `newId(k)` and keeps everything else. |
| ProfileView.ImportDataSpec | src/components/compost/CompostProfileView.tsx:192-195 | The merged list is newest first and holds exactly the old and the imported measurements; nothing else in the profile changes. |
| ProfileView.ImportNothing | src/components/compost/CompostProfileView.tsx:192-195 | Importing nothing into a list already newest first changes nothing. |
| Records.SortNewestFirst | src/components/compost/CompostProfileView.tsx:194 | The sort gives a newest-first permutation of its input. |
| Records.SortSorted | src/components/compost/CompostProfileView.tsx:194 | A list already newest first is left as it is. |
| Records.RemoveKey | src/components/compost/CompostProfileView.tsx:181 | `filter` keeps only elements whose key differs, and every such element is kept. |
| Records.RemoveUniqueKey | src/components/compost/CompostProfileManager.tsx:74 | With unique keys, removing a listed key removes exactly one element. |
| Records.RemoveKeyKeepsUnique | src/components/compost/CompostProfileManager.tsx:74 | Filtering keeps the keys unique. |
| Records.ReplaceKey | src/components/compost/CompostProfileManager.tsx:85 | `map` replaces exactly the elements with the matching key and keeps the length. |
| Records.ReplaceKeyIdempotent | src/components/compost/CompostProfileManager.tsx:85 | Replacing twice is the same as once, and with no matching key nothing changes. |
| ProfileManager.GetRandomColor | src/components/compost/CompostProfileManager.tsx:24-31 | The loop builds `ColorOf(draws)`: '#' followed by six characters from "0123456789ABCDEF". |
| ProfileManager.ColorOfShape | src/components/compost/CompostProfileManager.tsx:24-31 | Every colour has that form, and letter i is the one draw i picks via `floor(r * 16)`. |
| ProfileManager.EveryColorReachable | src/components/compost/CompostProfileManager.tsx:24-31 | Every string of that form is produced by some draws. |
| ProfileManager.Digit | src/components/compost/CompostProfileManager.tsx:28 | `Math.floor(r * 16)` for a draw in [0, 1) indexes a letter. |
| ProfileManager.FindById | src/components/compost/CompostProfileManager.tsx:66 | `find` gives nothing exactly when no profile has the id; otherwise it gives the first profile with it. |
| ProfileManager.SyncedTabSpec | src/components/compost/CompostProfileManager.tsx:40-46 | No profiles means no tab. With profiles there is a tab: the first profile's if none was set, otherwise the one set. Running it again changes nothing. |
| ProfileManager.SyncKeepsConsistent | src/components/compost/CompostProfileManager.tsx:40-46 | The effect keeps the selected tab among the profiles. |
| ProfileManager.CreateKeepsConsistent | src/components/compost/CompostProfileManager.tsx:48-61 | Creating under a fresh id keeps ids unique and selects the new profile, which the effect then leaves as it is. |
| ProfileManager.DeleteSpec | src/components/compost/CompostProfileManager.tsx:74 | Exactly the profiles with the id are removed, the others are kept, and one goes when the id is listed. |
| ProfileManager.DeleteKeepsConsistent | src/components/compost/CompostProfileManager.tsx:74-80 | After a deletion, ids stay unique and the selected tab is still a listed profile or none. |
| ProfileManager.UpdateKeepsConsistent | src/components/compost/CompostProfileManager.tsx:83-87 | Updating keeps every id in place, so ids stay unique and the tab stays valid. |
| ProfileManager.Manager.constructor | src/components/compost/CompostProfileManager.tsx:34-37 | The state starts as the stored list, with no tab and no pending deletion. |
| ProfileManager.Manager.SyncActiveTab | src/components/compost/CompostProfileManager.tsx:40-46 | Only the tab changes, to `SyncedTab` of the old state, and the state stays consistent. |
| ProfileManager.Manager.CreateProfile | src/components/compost/CompostProfileManager.tsx:48-61 | Exactly one profile is appended: the fresh id, the name and composition, no measurements, no photos and a valid colour. It becomes the selected tab. |
| ProfileManager.Manager.RequestDelete | src/components/compost/CompostProfileManager.tsx:65-70 | A listed id's first profile becomes the pending deletion; otherwise nothing changes. |
| ProfileManager.Manager.ConfirmDelete | src/components/compost/CompostProfileManager.tsx:72-81 | With nothing pending, nothing changes. Otherwise the id is filtered out, and a selected deleted tab becomes the first remaining profile, or none. Any other tab is kept, and consistency is preserved. |
| ProfileManager.Manager.UpdateProfile | src/components/compost/CompostProfileManager.tsx:83-87 | The profile with the same id is replaced, nothing else changes, and consistency is preserved. |
| DataLogForm.Coerce | src/components/compost/DataLogForm.tsx:22-25 | `z.coerce.number()`: `undefined` is NaN and a blank string is 0. |
| DataLogForm.ReadNumber | src/components/compost/DataLogForm.tsx:22-23 | A field passes exactly when it coerces to a number within its bounds, and it then has that value. |
| DataLogForm.ReadOptional | src/components/compost/DataLogForm.tsx:24-25 | An optional field passes exactly when it is "" or a number within its bounds. Tried literal-first, it is blank exactly when it is "". |
| DataLogForm.SubmitSpec | src/components/compost/DataLogForm.tsx:20-59 | Under the corrected schema, which tries the literal "" first for pH and EC (the finding on DataLogForm.tsx:24-25), a submit goes through exactly when a date is picked, temperature is in [-50, 100], humidity in [0, 100], pH "" or in [0, 14], and EC "" or at least 0. What goes through is in those ranges, with pH, EC and notes present exactly when their fields are non-empty. The program as written stores an empty pH or EC as 0: see DataLogForm.EmptyOptionalReadsZero and DataLogForm.UntouchedFormRecordsZero. |
| DataLogForm.ProcessSubmit | src/components/compost/DataLogForm.tsx:51-59 | Date, temperature and humidity are always present. pH and EC are included exactly when they are given, notes exactly when non-empty, and there is no ambient temperature. |
| DataLogForm.TemperatureOutOfRange | src/components/compost/DataLogForm.tsx:22 | A temperature outside [-50, 100] is always turned down, with the temperature's error. |
| DataLogForm.BlankTemperature | src/components/compost/DataLogForm.tsx:22 | A temperature handed to the schema as `undefined` coerces to NaN and is turned down; one handed over as "" reads as 0 when the form is accepted. |
| DataLogForm.EmptyOptionalReadsZero | src/components/compost/DataLogForm.tsx:24-25 | As written, an empty pH or EC field is recorded as 0. Corrected, it is left out. |
| DataLogForm.UntouchedFormRecordsZero | src/components/compost/DataLogForm.tsx:24-57 | For every form with a date and a temperature and humidity that read as numbers in range, with pH and EC at their default "": as written, pH 0 and EC 0 are recorded; when corrected, neither is recorded. |
| DataLogForm.AsWrittenAgreesElsewhere | src/components/compost/DataLogForm.tsx:24-25 | The two schemas differ only on an empty pH or EC field. |
| DataLogForm.FieldsAfterSubmit | src/components/compost/DataLogForm.tsx:61-73 | Outside edit mode the values passed to `reset` are the empty defaults dated today; in edit mode the form values are kept. |
| DataLogForm.ResetFormTurnedDown | src/components/compost/DataLogForm.tsx:61-69 | The defaults passed to `reset`, taken as the form's values, are turned down by the schema (temperature `undefined` is NaN). |

## Left out

- **I/O and UI.** Not modelled:
  - reading the file, the Blob and the download link, toasts, `console.warn`;
  - the `fileInputKey` reset, React rendering and the dialogs.
- **Storage.** `useLocalStorage` is not modelled; the constructor takes the stored list.
- **Time zones.** Not modelled: `toISOString` (CsvControls.tsx:237, DataLogForm.tsx:53) and the local-time reading of dates. Dates stay calendar date-times.
- **Iso.ParseIso:** covers the calendar-date forms `yyyy`, `yyyy-MM` and `yyyy-MM-dd`, with or without '-', and then `HH`, `HH:mm` or `HH:mm:ss` after 'T' or ' '. Not covered: the century form `yy` ("20" is 2000-01-01), years expanded to six digits with a sign ("+002024-05-01", "-000100"), time-zone offsets, fractions of a second, week and ordinal dates, and 24:00. A date cell in one of these forms is read as ISO by the program and by the format list or not at all by the model.
- **Unicode.** Strings are sequences of Unicode scalar values. JavaScript's are UTF-16 code units; lone surrogates are not modelled. `Text.IsSpace` is the full set `trim` removes (ECMAScript WhiteSpace and LineTerminator).
- **HeaderNormalized:** `Text.ToLower` lower-cases A to Z only, where `toLowerCase` lower-cases every letter with a lower case. A header with other capitals keeps them in the model. The keys the import looks up hold only ASCII characters and '°', and no 'k'; '°' has no case mapping. Outside A to Z, only the Kelvin sign lower-cases to plain ASCII (to 'k'), and 'İ' lower-cases to 'i' followed by a combining dot, so which cells the import finds is the same.
- **ParseCsv:** the record keys inherit the `HeaderNormalized` gap for headers with capitals outside A to Z; the cell values are trimmed exactly as `trim` does.
- **DatePatterns.ParsePattern:** covers the tokens the candidate formats use. The reference date is fixed in year 2025, where the code reads the clock (CsvControls.tsx:69).
- **Numbers.**
  - Floating point is not modelled: readings and C:N sums are exact reals. `toFixed` on a binary double can round a decimal tie differently from the exact value.
  - Infinity has no representation.
  - `parseFloat`, `Number` and large-number `toString` are parameters.
- **Fresh values.** `crypto.randomUUID` and `Math.random` are parameters. Fresh ids are required where uniqueness matters.
- **Form state.** The model takes the values passed as defaults and to `reset` (DataLogForm.tsx:41-48, 62-69) as the values the schema is given. It does not cover the raw value react-hook-form hands the schema for an untouched or reset field; the inputs are registered without `valueAsNumber` (lines 115, 121), so that value depends on the library and the input's text.
- **Zod's error messages.** Those the schema does not write itself are stand-ins. Zod reports every failing field; DataLogForm.ValidateWith reports the first.
- **`saveCNChanges`** and its `setTimeout` (CompostProfileView.tsx:150-168) are not modelled. Neither is the effect that resets the C:N editing state (lines 64-71) or the composition and notes setters.
- **The material table** (`cn-ratio-data.ts`) is not modelled; the table is a parameter of the C:N calculation.
- **Selecting a tab by hand** (`onValueChange`) is not modelled.
- **Records.SortNewestFirst:** states newest-first order and the permutation only. The order among equal timestamps is not stated, except that a list already sorted is left alone.
- **The `.filter(log => log !== null)`** (CsvControls.tsx:245) cannot remove anything and is not modelled.

## Findings

| source | as written | input that shows it | evidently intended | confidence | as-written member | corrected member |
|---|---|---|---|---|---|---|
| src/components/compost/CompostProfileView.tsx:81 | `!selectedMaterialName \|\| parseFloat(currentQuantity) <= 0` lets a quantity through that reads as NaN, because `NaN <= 0` is false | a selected material with an empty quantity field, or "abc" | the quantity must be a positive number, as the error message says | high, not executed | CarbonNitrogen.AddMaterialAsWrittenAddsNaN | CarbonNitrogen.AddMaterialKeepsList |
| src/components/compost/DataLogForm.tsx:24-25 | `z.coerce.number()...optional().or(z.literal(""))` tries the coercing branch first, and `Number("")` is 0, so an empty pH or EC field validates as 0 and `processSubmit` stores it | any form with a date, temperature and humidity in range (55.5 and 60, say), and pH and EC at their default "" | an empty optional field means no reading | high, not executed | DataLogForm.UntouchedFormRecordsZero | DataLogForm.SubmitSpec |
