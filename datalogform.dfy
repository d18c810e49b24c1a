/** The measurement form: `dataLogSchema`'s checks on the raw field values,
    then `processSubmit`, which builds the measurement handed to `onSubmit`.
    The inputs are registered without `valueAsNumber`, so the form holds
    strings; `number` is JavaScript's `Number()` on a non-blank string
    (`None` for `NaN`). */
module DataLogForm {
  import opened Wrappers
  import opened Text
  import opened Calendar
  import opened Records

  /** The values the schema is given. `None` is `undefined`, the default the
      code passes for temperature and humidity outside edit mode; pH, EC and
      notes default to `""`. */
  datatype FormInput = FormInput(
    date: Option<DateTime>,
    temperature: Option<string>,
    humidity: Option<string>,
    ph: string,
    ec: string,
    notes: string)

  /** An optional number field after validation: the literal `""` or a number. */
  datatype Optional = Blank | Given(value: real)

  /** The form state once the schema accepts it. */
  datatype FormValues = FormValues(
    date: DateTime,
    temperature: real,
    humidity: real,
    ph: Optional,
    ec: Optional,
    notes: string)

  /** Which rule of the schema turned the form down, with its message. */
  datatype FieldError = FieldError(field: string, message: string)

  /** `z.coerce.number()`'s `Number(x)`: `undefined` is `NaN`, a blank string is 0. */
  function Coerce(number: string -> Option<real>, x: Option<string>): (r: Option<real>)
    ensures x.None? ==> r.None?
    ensures x.Some? && Trim(x.value) == "" ==> r == Some(0.0)
  {
    if x.None? then None
    else if Trim(x.value) == "" then Some(0.0)
    else number(x.value)
  }

  /** `lo <= v` and `v <= hi` where a bound is given. */
  predicate Within(v: real, lo: Option<real>, hi: Option<real>) {
    (lo.None? || lo.value <= v) && (hi.None? || v <= hi.value)
  }

  /** `z.coerce.number().min(lo).max(hi)`: a number, not `NaN`, within bounds. */
  function ReadNumber(number: string -> Option<real>, x: Option<string>, lo: real, hi: real,
                      field: string, low: string, high: string): (r: Result<real, FieldError>)
    ensures r.Ok? <==> Coerce(number, x).Some? && lo <= Coerce(number, x).value <= hi
    ensures r.Ok? ==> r.value == Coerce(number, x).value
  {
    var c := Coerce(number, x);
    if c.None? then Err(FieldError(field, "Expected number, received nan"))
    else if c.value < lo then Err(FieldError(field, low))
    else if c.value > hi then Err(FieldError(field, high))
    else Ok(c.value)
  }

  /** `z.coerce.number().min(lo).max(hi).optional().or(z.literal(""))`: zod
      tries the coercing number first and the literal `""` second; with
      `literalFirst` the two are tried the other way round. */
  function ReadOptional(number: string -> Option<real>, s: string, lo: real, hi: Option<real>,
                        literalFirst: bool, field: string): (r: Result<Optional, FieldError>)
    ensures var c := Coerce(number, Some(s));
            (r.Ok? <==> s == "" || (c.Some? && Within(c.value, Some(lo), hi))) &&
            (r.Ok? && r.value.Given? ==> c.Some? && r.value.value == c.value && Within(c.value, Some(lo), hi)) &&
            (literalFirst ==> (r.Ok? && r.value.Blank? <==> s == ""))
  {
    var c := Coerce(number, Some(s));
    if literalFirst && s == "" then Ok(Blank)
    else if c.Some? && Within(c.value, Some(lo), hi) then Ok(Given(c.value))
    else if s == "" then Ok(Blank)
    else Err(FieldError(field, "Invalid input"))
  }

  /** The schema's verdict from each field's: the first failing rule reported. */
  function Combine(date: Option<DateTime>, t: Result<real, FieldError>, h: Result<real, FieldError>,
                   p: Result<Optional, FieldError>, e: Result<Optional, FieldError>, notes: string): Result<FormValues, FieldError> {
    if date.None? then Err(FieldError("date", "La fecha es obligatoria."))
    else if t.Err? then Err(t.error)
    else if h.Err? then Err(h.error)
    else if p.Err? then Err(p.error)
    else if e.Err? then Err(e.error)
    else Ok(FormValues(date.value, t.value, h.value, p.value, e.value, notes))
  }

  /** The whole schema, field by field in its order. */
  function ValidateWith(number: string -> Option<real>, input: FormInput, literalFirst: bool): Result<FormValues, FieldError> {
    Combine(input.date,
            ReadNumber(number, input.temperature, -50.0, 100.0, "temperature", "Demasiado bajo", "Demasiado alto"),
            ReadNumber(number, input.humidity, 0.0, 100.0, "humidity", "M\U{ED}n 0%", "M\U{E1}x 100%"),
            ReadOptional(number, input.ph, 0.0, Some(14.0), literalFirst, "ph"),
            ReadOptional(number, input.ec, 0.0, None, literalFirst, "ec"),
            input.notes)
  }

  /** The schema as the source writes it. */
  function ValidateAsWritten(number: string -> Option<real>, input: FormInput): Result<FormValues, FieldError> {
    ValidateWith(number, input, false)
  }

  /** The schema as intended: an empty pH or EC field is no reading. */
  function Validate(number: string -> Option<real>, input: FormInput): Result<FormValues, FieldError> {
    ValidateWith(number, input, true)
  }

  /** `processSubmit`'s object: pH and EC only when not `""`, notes only when
      non-empty; no id yet (`""`), the browser's time zone left out. */
  function ProcessSubmit(v: FormValues): (log: DataLog)
    ensures log.date == v.date && log.temperature == v.temperature && log.humidity == v.humidity
    ensures log.ph.Some? <==> v.ph.Given?
    ensures v.ph.Given? ==> log.ph.value == v.ph.value
    ensures log.ec.Some? <==> v.ec.Given?
    ensures v.ec.Given? ==> log.ec.value == v.ec.value
    ensures log.notes.Some? <==> v.notes != ""
    ensures log.notes.Some? ==> log.notes.value == v.notes
    ensures log.ambientTemperature.None?
  {
    DataLog("", v.date, v.temperature, v.humidity,
            if v.ph.Given? then Some(v.ph.value) else None,
            if v.ec.Given? then Some(v.ec.value) else None,
            None,
            if v.notes != "" then Some(v.notes) else None)
  }

  /** The measurement a submit hands on, or why the form turned it down,
      under the corrected schema that tries the literal `""` first for pH and
      EC (see `SubmitAsWritten` for the schema as the source writes it). */
  function Submit(number: string -> Option<real>, input: FormInput): Result<DataLog, FieldError> {
    var v := Validate(number, input);
    if v.Ok? then Ok(ProcessSubmit(v.value)) else Err(v.error)
  }

  /** The measurement a submit hands on under the schema as the source writes
      it, where an empty pH or EC field reads as 0 (`EmptyOptionalReadsZero`). */
  function SubmitAsWritten(number: string -> Option<real>, input: FormInput): Result<DataLog, FieldError> {
    var v := ValidateAsWritten(number, input);
    if v.Ok? then Ok(ProcessSubmit(v.value)) else Err(v.error)
  }

  /** The schema's ranges, as they show on a submitted measurement. */
  predicate InSchemaRanges(log: DataLog) {
    -50.0 <= log.temperature <= 100.0 &&
    0.0 <= log.humidity <= 100.0 &&
    (log.ph.None? || 0.0 <= log.ph.value <= 14.0) &&
    (log.ec.None? || 0.0 <= log.ec.value)
  }

  // ---- What the schema accepts ----

  /** Under the corrected schema, a submit goes through exactly when a date
      is picked, temperature and humidity read as numbers within [-50, 100]
      and [0, 100], and pH and EC are each empty or a number within [0, 14]
      and at least 0; what goes through is within those ranges, and an empty
      pH, EC or notes field is left out of the measurement. */
  lemma SubmitSpec(number: string -> Option<real>, input: FormInput)
    ensures var t := Coerce(number, input.temperature);
            var h := Coerce(number, input.humidity);
            var p := Coerce(number, Some(input.ph));
            var e := Coerce(number, Some(input.ec));
            Submit(number, input).Ok? <==>
              input.date.Some? &&
              t.Some? && -50.0 <= t.value <= 100.0 &&
              h.Some? && 0.0 <= h.value <= 100.0 &&
              (input.ph == "" || (p.Some? && 0.0 <= p.value <= 14.0)) &&
              (input.ec == "" || (e.Some? && 0.0 <= e.value))
    ensures var r := Submit(number, input);
            r.Ok? ==>
              InSchemaRanges(r.value) &&
              r.value.date == input.date.value &&
              r.value.temperature == Coerce(number, input.temperature).value &&
              r.value.humidity == Coerce(number, input.humidity).value &&
              (r.value.ph.None? <==> input.ph == "") &&
              (r.value.ph.Some? ==> r.value.ph.value == Coerce(number, Some(input.ph)).value) &&
              (r.value.ec.None? <==> input.ec == "") &&
              (r.value.ec.Some? ==> r.value.ec.value == Coerce(number, Some(input.ec)).value) &&
              (r.value.notes.None? <==> input.notes == "") &&
              (r.value.notes.Some? ==> r.value.notes.value == input.notes)
  {
    SubmitAccepts(number, input);
    SubmitBuilds(number, input);
  }

  lemma SubmitAccepts(number: string -> Option<real>, input: FormInput)
    ensures var t := Coerce(number, input.temperature);
            var h := Coerce(number, input.humidity);
            var p := Coerce(number, Some(input.ph));
            var e := Coerce(number, Some(input.ec));
            Submit(number, input).Ok? <==>
              input.date.Some? &&
              t.Some? && -50.0 <= t.value <= 100.0 &&
              h.Some? && 0.0 <= h.value <= 100.0 &&
              (input.ph == "" || (p.Some? && 0.0 <= p.value <= 14.0)) &&
              (input.ec == "" || (e.Some? && 0.0 <= e.value))
  {
    var t := ReadNumber(number, input.temperature, -50.0, 100.0, "temperature", "Demasiado bajo", "Demasiado alto");
    var h := ReadNumber(number, input.humidity, 0.0, 100.0, "humidity", "M\U{ED}n 0%", "M\U{E1}x 100%");
    var p := ReadOptional(number, input.ph, 0.0, Some(14.0), true, "ph");
    var e := ReadOptional(number, input.ec, 0.0, None, true, "ec");
    OptionalOk(number, input.ph, 0.0, Some(14.0), true, "ph");
    OptionalOk(number, input.ec, 0.0, None, true, "ec");
    var ct, ch := Coerce(number, input.temperature), Coerce(number, input.humidity);
    var cp, ce := Coerce(number, Some(input.ph)), Coerce(number, Some(input.ec));
    assert t.Ok? <==> ct.Some? && -50.0 <= ct.value <= 100.0;
    assert h.Ok? <==> ch.Some? && 0.0 <= ch.value <= 100.0;
    assert p.Ok? <==> input.ph == "" || (cp.Some? && 0.0 <= cp.value <= 14.0);
    assert e.Ok? <==> input.ec == "" || (ce.Some? && 0.0 <= ce.value);
    assert Validate(number, input) == Combine(input.date, t, h, p, e, input.notes);
    assert Submit(number, input).Ok? <==> input.date.Some? && t.Ok? && h.Ok? && p.Ok? && e.Ok?;
  }

  lemma SubmitBuilds(number: string -> Option<real>, input: FormInput)
    ensures var r := Submit(number, input);
            r.Ok? ==>
              InSchemaRanges(r.value) &&
              r.value.date == input.date.value &&
              r.value.temperature == Coerce(number, input.temperature).value &&
              r.value.humidity == Coerce(number, input.humidity).value &&
              (r.value.ph.None? <==> input.ph == "") &&
              (r.value.ph.Some? ==> r.value.ph.value == Coerce(number, Some(input.ph)).value) &&
              (r.value.ec.None? <==> input.ec == "") &&
              (r.value.ec.Some? ==> r.value.ec.value == Coerce(number, Some(input.ec)).value) &&
              (r.value.notes.None? <==> input.notes == "") &&
              (r.value.notes.Some? ==> r.value.notes.value == input.notes)
  {
    var v := Validate(number, input);
    if v.Ok? {
      SubmitFields(number, input);
      SubmitOptionalFields(number, input);
    }
  }

  /** The date, temperature, humidity and notes of what goes through are the form's. */
  lemma SubmitFields(number: string -> Option<real>, input: FormInput)
    requires Validate(number, input).Ok?
    ensures var fv := Validate(number, input).value;
            input.date.Some? && fv.date == input.date.value &&
            Coerce(number, input.temperature).Some? && fv.temperature == Coerce(number, input.temperature).value &&
            -50.0 <= fv.temperature <= 100.0 &&
            Coerce(number, input.humidity).Some? && fv.humidity == Coerce(number, input.humidity).value &&
            0.0 <= fv.humidity <= 100.0 &&
            fv.notes == input.notes
  {
    var t := ReadNumber(number, input.temperature, -50.0, 100.0, "temperature", "Demasiado bajo", "Demasiado alto");
    var h := ReadNumber(number, input.humidity, 0.0, 100.0, "humidity", "M\U{ED}n 0%", "M\U{E1}x 100%");
    var p := ReadOptional(number, input.ph, 0.0, Some(14.0), true, "ph");
    var e := ReadOptional(number, input.ec, 0.0, None, true, "ec");
    assert Validate(number, input) == Combine(input.date, t, h, p, e, input.notes);
    var fv := FormValues(input.date.value, t.value, h.value, p.value, e.value, input.notes);
    assert Validate(number, input).value == fv;
  }

  /** The pH and EC of what goes through: blank exactly when the field is empty, else the field's number in range. */
  lemma SubmitOptionalFields(number: string -> Option<real>, input: FormInput)
    requires Validate(number, input).Ok?
    ensures var fv := Validate(number, input).value;
            var cp := Coerce(number, Some(input.ph));
            var ce := Coerce(number, Some(input.ec));
            (fv.ph.Blank? <==> input.ph == "") &&
            (fv.ph.Given? ==> cp.Some? && fv.ph.value == cp.value && 0.0 <= fv.ph.value <= 14.0) &&
            (fv.ec.Blank? <==> input.ec == "") &&
            (fv.ec.Given? ==> ce.Some? && fv.ec.value == ce.value && 0.0 <= fv.ec.value)
  {
    var t := ReadNumber(number, input.temperature, -50.0, 100.0, "temperature", "Demasiado bajo", "Demasiado alto");
    var h := ReadNumber(number, input.humidity, 0.0, 100.0, "humidity", "M\U{ED}n 0%", "M\U{E1}x 100%");
    var p := ReadOptional(number, input.ph, 0.0, Some(14.0), true, "ph");
    var e := ReadOptional(number, input.ec, 0.0, None, true, "ec");
    assert Validate(number, input) == Combine(input.date, t, h, p, e, input.notes);
    var fv := FormValues(input.date.value, t.value, h.value, p.value, e.value, input.notes);
    assert Validate(number, input).value == fv;
    OptionalOk(number, input.ph, 0.0, Some(14.0), true, "ph");
    OptionalOk(number, input.ec, 0.0, None, true, "ec");
  }

  /** When an optional field goes through, with the bounds written out. */
  lemma OptionalOk(number: string -> Option<real>, s: string, lo: real, hi: Option<real>,
                   literalFirst: bool, field: string)
    ensures var c := Coerce(number, Some(s));
            ReadOptional(number, s, lo, hi, literalFirst, field).Ok? <==>
              s == "" || (c.Some? && lo <= c.value && (hi.None? || c.value <= hi.value))
  {
  }

  /** A temperature out of [-50, 100] never goes through, whatever else the form holds. */
  lemma TemperatureOutOfRange(number: string -> Option<real>, input: FormInput)
    requires var t := Coerce(number, input.temperature); t.Some? && (t.value < -50.0 || t.value > 100.0)
    ensures Submit(number, input) == SubmitAsWritten(number, input)
    ensures input.date.Some? ==> Submit(number, input).Err? && Submit(number, input).error.field == "temperature"
  {
    var t := ReadNumber(number, input.temperature, -50.0, 100.0, "temperature", "Demasiado bajo", "Demasiado alto");
    assert t.Err? && t.error.field == "temperature";
    if input.date.Some? {
      assert ValidateWith(number, input, true) == Err(t.error);
      assert ValidateWith(number, input, false) == Err(t.error);
    }
  }

  /** A temperature handed to the schema as `undefined` coerces to `NaN` and
      is turned down; one handed over as `""` reads as 0. */
  lemma BlankTemperature(number: string -> Option<real>, input: FormInput)
    requires input.date.Some?
    ensures input.temperature.None? ==> Submit(number, input) == Err(FieldError("temperature", "Expected number, received nan"))
    ensures input.temperature == Some("") && Submit(number, input).Ok? ==> Submit(number, input).value.temperature == 0.0
  {
    assert Trim("") == "";
  }

  // ---- The empty optional fields ----

  /** As written, an empty pH or EC field (their default `""`) goes
      through as a reading of 0: `Number("")` is 0, which the coercing
      alternative accepts before the literal `""` is tried. */
  lemma EmptyOptionalReadsZero(number: string -> Option<real>, input: FormInput)
    requires input.ph == "" && input.ec == ""
    requires SubmitAsWritten(number, input).Ok?
    ensures SubmitAsWritten(number, input).value.ph == Some(0.0)
    ensures SubmitAsWritten(number, input).value.ec == Some(0.0)
    ensures Submit(number, input).Ok?
    ensures Submit(number, input).value.ph.None? && Submit(number, input).value.ec.None?
  {
    assert Trim("") == "";
  }

  /** A form with pH, EC and notes at their default `""`, a date, and a temperature and humidity that read
      as numbers within range: as written it records pH and EC 0, as intended none. */
  lemma UntouchedFormRecordsZero(number: string -> Option<real>, today: DateTime,
                                 ts: string, tv: real, hs: string, hv: real)
    requires Coerce(number, Some(ts)) == Some(tv) && -50.0 <= tv <= 100.0
    requires Coerce(number, Some(hs)) == Some(hv) && 0.0 <= hv <= 100.0
    ensures var input := FormInput(Some(today), Some(ts), Some(hs), "", "", "");
            SubmitAsWritten(number, input).Ok? &&
            SubmitAsWritten(number, input).value.ph == Some(0.0) &&
            SubmitAsWritten(number, input).value.ec == Some(0.0) &&
            Submit(number, input).Ok? &&
            Submit(number, input).value.ph == None && Submit(number, input).value.ec == None
  {
    var input := FormInput(Some(today), Some(ts), Some(hs), "", "", "");
    UntouchedFormPasses(number, today, ts, tv, hs, hv);
    EmptyOptionalReadsZero(number, input);
  }

  /** That form passes the schema as written. */
  lemma UntouchedFormPasses(number: string -> Option<real>, today: DateTime, ts: string, tv: real, hs: string, hv: real)
    requires Coerce(number, Some(ts)) == Some(tv) && -50.0 <= tv <= 100.0
    requires Coerce(number, Some(hs)) == Some(hv) && 0.0 <= hv <= 100.0
    ensures SubmitAsWritten(number, FormInput(Some(today), Some(ts), Some(hs), "", "", "")).Ok?
  {
    assert Trim("") == "";
  }

  /** The two schemas differ only on an empty pH or EC field. */
  lemma AsWrittenAgreesElsewhere(number: string -> Option<real>, input: FormInput)
    requires input.ph != "" && input.ec != ""
    ensures SubmitAsWritten(number, input) == Submit(number, input)
  {
    ReadOptionalOrder(number, input.ph, 0.0, Some(14.0), "ph");
    ReadOptionalOrder(number, input.ec, 0.0, None, "ec");
  }

  /** On a non-empty field the order of the two alternatives does not matter. */
  lemma ReadOptionalOrder(number: string -> Option<real>, s: string, lo: real, hi: Option<real>, field: string)
    requires s != ""
    ensures ReadOptional(number, s, lo, hi, false, field) == ReadOptional(number, s, lo, hi, true, field)
  {
  }

  // ---- After the submit ----

  /** The values passed to `form.reset(...)`: outside edit mode the defaults
      dated `today`; in edit mode the fields stay as they are. */
  function FieldsAfterSubmit(isEditMode: bool, current: FormInput, today: DateTime): (r: FormInput)
    ensures isEditMode ==> r == current
    ensures !isEditMode ==> r == FormInput(Some(today), None, None, "", "", "")
  {
    if isEditMode then current else FormInput(Some(today), None, None, "", "", "")
  }

  /** The defaults passed to `reset`, taken as the form's values, are turned
      down by the schema. */
  lemma ResetFormTurnedDown(number: string -> Option<real>, current: FormInput, today: DateTime)
    ensures Submit(number, FieldsAfterSubmit(false, current, today)).Err?
  {
  }
}
