/** `attemptParseDateWithFormats`: ISO first, then the candidate formats in
    order, with the day/month plausibility check applied to each match. */
module CsvDates {
  import opened Wrappers
  import opened Text
  import opened Calendar
  import opened Iso
  import opened DatePatterns

  /** A parsed date and the format that produced it (`"ISO"` or a format string). */
  datatype ParsedDate = ParsedDate(date: Option<DateTime>, formatUsed: Option<string>)

  const IsoFormat: string := "ISO"

  /** `s.replace(/[^\d\w]/g, '-')`. */
  function ReplaceNonWord(s: string): (r: string)
    ensures |r| == |s|
    ensures forall i :: 0 <= i < |s| ==> r[i] == (if IsWordChar(s[i]) then s[i] else '-')
  {
    if s == [] then [] else [if IsWordChar(s[0]) then s[0] else '-'] + ReplaceNonWord(s[1..])
  }

  predicate IsHexDigit(c: char) { IsDigit(c) || ('a' <= c <= 'f') || ('A' <= c <= 'F') }

  function HexDigitValue(c: char): nat
    requires IsHexDigit(c)
  {
    if IsDigit(c) then c as int - '0' as int
    else if 'a' <= c <= 'f' then c as int - 'a' as int + 10
    else c as int - 'A' as int + 10
  }

  /** The number of hexadecimal digits at the front of `s`. */
  function LeadingHex(s: string): (n: nat)
    ensures n <= |s| && forall i :: 0 <= i < n ==> IsHexDigit(s[i])
  {
    if s == [] || !IsHexDigit(s[0]) then 0 else 1 + LeadingHex(s[1..])
  }

  function HexValue(s: string): nat
    requires forall i :: 0 <= i < |s| ==> IsHexDigit(s[i])
  {
    if s == [] then 0 else 16 * HexValue(s[..|s| - 1]) + HexDigitValue(s[|s| - 1])
  }

  /** `parseInt(s)` without a radix: leading white space, an optional sign, a
      `0x` prefix for hexadecimal, then as many digits as there are. `None` is NaN. */
  function ParseInt(s: string): (r: Option<int>)
  {
    var t := TrimStart(s);
    var negative := |t| > 0 && t[0] == '-';
    var u := if |t| > 0 && (t[0] == '-' || t[0] == '+') then t[1..] else t;
    var hex := |u| >= 2 && u[0] == '0' && (u[1] == 'x' || u[1] == 'X');
    var body := if hex then u[2..] else u;
    var n := if hex then LeadingHex(body) else LeadingDigits(body, |body|);
    if n == 0 then None
    else
      var v := if hex then HexValue(body[..n]) else DigitsValue(body[..n]);
      Some(if negative then -v else v)
  }

  /** A run of decimal digits is read as its value. */
  lemma ParseIntOfDigits(d: string)
    requires |d| >= 1 && AllDigits(d)
    ensures ParseInt(d) == Some(DigitsValue(d))
  {
    assert IsDigit(d[0]) && !IsSpace(d[0]);
    assert TrimStart(d) == d;
    assert d[0] != '-' && d[0] != '+';
    assert !(|d| >= 2 && d[0] == '0' && (d[1] == 'x' || d[1] == 'X')) by {
      if |d| >= 2 { assert IsDigit(d[1]); }
    }
    var n := LeadingDigits(d, |d|);
    assert n == |d|;
    assert d[..n] == d;
    assert ParseInt(d) == Some(DigitsValue(d[..n]));
  }

  /** The heuristic's condition on the format string. */
  predicate MentionsDayAndMonth(fmt: string) {
    ('d' in fmt || 'D' in fmt) && ('m' in fmt || 'M' in fmt)
  }

  predicate Exceeds12(p: Option<int>) { p.Some? && p.value > 12 }

  /** The plausibility check of a match `dt` of `fmt` against the first two
      parts of `s`: false exactly where the loop would `continue`. */
  predicate Plausible(s: string, fmt: string, dt: DateTime) {
    if !MentionsDayAndMonth(fmt) then true
    else
      var parts := Split(ReplaceNonWord(s), '-');
      if |parts| < 2 then true
      else
        var p1 := ParseInt(parts[0]);
        var p2 := ParseInt(parts[1]);
        var lower := ToLower(fmt);
        if |lower| > 0 && lower[0] == 'd' then
          !(Exceeds12(p1) && p1.value != dt.day) && !(Exceeds12(p2) && p2.value != dt.month)
        else if |lower| > 0 && lower[0] == 'm' then
          !(Exceeds12(p1) && p1.value != dt.month) && !(Exceeds12(p2) && p2.value != dt.day)
        else true
  }

  /** A format that the loop returns: it parses and passes the check. */
  predicate Accepts(s: string, fmt: string) {
    ParsePattern(s, fmt, ReferenceYear).Some? &&
    Plausible(s, fmt, ParsePattern(s, fmt, ReferenceYear).value)
  }

  /** The loop over `fmts`: the first accepted format and its date. */
  function FirstAccepted(s: string, fmts: seq<string>): (r: ParsedDate)
    ensures r.date.Some? <==> r.formatUsed.Some?
    ensures r.formatUsed.Some? ==> r.formatUsed.value in fmts && Accepts(s, r.formatUsed.value)
                                   && r.date == ParsePattern(s, r.formatUsed.value, ReferenceYear)
    decreases |fmts|
  {
    if fmts == [] then ParsedDate(None, None)
    else if Accepts(s, fmts[0]) then ParsedDate(ParsePattern(s, fmts[0], ReferenceYear), Some(fmts[0]))
    else FirstAccepted(s, fmts[1..])
  }

  /** The whole function: blank input, then ISO, then the candidate list. */
  function AttemptParseDate(s: string): (r: ParsedDate)
    ensures r.date.Some? <==> r.formatUsed.Some?
    ensures r.date.Some? ==> Valid(r.date.value)
    ensures Trim(s) == "" ==> r == ParsedDate(None, None)
    ensures Trim(s) != "" && ParseIso(s).Some? ==> r == ParsedDate(ParseIso(s), Some(IsoFormat))
  {
    if Trim(s) == "" then ParsedDate(None, None)
    else if ParseIso(s).Some? then ParsedDate(ParseIso(s), Some(IsoFormat))
    else FirstAccepted(s, FormatStrings)
  }

  /** The loop with its `continue`s and early return, as written. */
  method AttemptParseDateWithFormats(dateString: string) returns (r: ParsedDate)
    ensures r == AttemptParseDate(dateString)
  {
    if dateString == "" || Trim(dateString) == "" {
      return ParsedDate(None, None);
    }
    var parsedDate := ParseIso(dateString);
    if parsedDate.Some? {
      return ParsedDate(parsedDate, Some(IsoFormat));
    }
    var i := 0;
    while i < |FormatStrings|
      invariant 0 <= i <= |FormatStrings|
      invariant FirstAccepted(dateString, FormatStrings[i..]) == AttemptParseDate(dateString)
    {
      var fmt := FormatStrings[i];
      FirstAcceptedStep(dateString, FormatStrings, i);
      parsedDate := ParsePattern(dateString, fmt, ReferenceYear);
      i := i + 1;
      if parsedDate.None? {
        continue;
      }
      var dt := parsedDate.value;
      if MentionsDayAndMonth(fmt) {
        var dateParts := Split(ReplaceNonWord(dateString), '-');
        if |dateParts| >= 2 {
          var p1 := ParseInt(dateParts[0]);
          var p2 := ParseInt(dateParts[1]);
          var lower := ToLower(fmt);
          if |lower| > 0 && lower[0] == 'd' {
            if Exceeds12(p1) && p1.value != dt.day { assert !Accepts(dateString, fmt); continue; }
            if Exceeds12(p2) && p2.value != dt.month { assert !Accepts(dateString, fmt); continue; }
          } else if |lower| > 0 && lower[0] == 'm' {
            if Exceeds12(p1) && p1.value != dt.month { assert !Accepts(dateString, fmt); continue; }
            if Exceeds12(p2) && p2.value != dt.day { assert !Accepts(dateString, fmt); continue; }
          }
        }
      }
      assert Accepts(dateString, fmt);
      return ParsedDate(parsedDate, Some(fmt));
    }
    return ParsedDate(None, None);
  }

  /** One turn of the loop: the candidate at `i` is returned, or the search goes on after it. */
  lemma FirstAcceptedStep(s: string, fmts: seq<string>, i: nat)
    requires i < |fmts|
    ensures FirstAccepted(s, fmts[i..]) ==
              if Accepts(s, fmts[i]) then ParsedDate(ParsePattern(s, fmts[i], ReferenceYear), Some(fmts[i]))
              else FirstAccepted(s, fmts[i + 1..])
  {
    assert fmts[i..][0] == fmts[i] && fmts[i..][1..] == fmts[i + 1..];
  }

  // ---- The result is the first accepted candidate ----

  lemma {:induction false} FirstAcceptedIsFirst(s: string, fmts: seq<string>)
    ensures FirstAccepted(s, fmts).formatUsed.None? <==> forall j :: 0 <= j < |fmts| ==> !Accepts(s, fmts[j])
    ensures FirstAccepted(s, fmts).formatUsed.Some? ==>
              exists i :: 0 <= i < |fmts| && fmts[i] == FirstAccepted(s, fmts).formatUsed.value &&
                          forall j :: 0 <= j < i ==> !Accepts(s, fmts[j])
    decreases |fmts|
  {
    if fmts != [] && !Accepts(s, fmts[0]) {
      FirstAcceptedIsFirst(s, fmts[1..]);
      var r := FirstAccepted(s, fmts[1..]);
      if r.formatUsed.Some? {
        var i :| 0 <= i < |fmts[1..]| && fmts[1..][i] == r.formatUsed.value &&
                 forall j :: 0 <= j < i ==> !Accepts(s, fmts[1..][j]);
        assert fmts[i + 1] == r.formatUsed.value;
        forall j | 0 <= j < i + 1 ensures !Accepts(s, fmts[j]) {
          if j > 0 { assert fmts[j] == fmts[1..][j - 1]; }
        }
      } else {
        forall j | 0 <= j < |fmts| ensures !Accepts(s, fmts[j]) {
          if j > 0 { assert fmts[j] == fmts[1..][j - 1]; }
        }
      }
    } else if fmts != [] {
      assert fmts[0] == FirstAccepted(s, fmts).formatUsed.value;
    }
  }

  // ---- The plausibility check never rejects a candidate that parsed ----

  predicate IsDay(f: Field) { f == Day1 || f == Day2 }
  predicate IsMonth(f: Field) { f == Month1 || f == Month2 }

  /** The shape that makes the check vacuous: a year comes first, or a day and
      a month come first, each followed by a non-word separator, and no other
      day or month field follows. */
  predicate CheckShape(toks: seq<Token>) {
    |toks| >= 1 && toks[0].FieldToken? &&
    (toks[0].field == Year4 || toks[0].field == Year2 ||
     (|toks| >= 4 && toks[1].Literal? && !IsWordChar(toks[1].c) && toks[2].FieldToken? &&
      toks[3].Literal? && !IsWordChar(toks[3].c) && NoDayOrMonth(toks[4..]) &&
      ((IsDay(toks[0].field) && IsMonth(toks[2].field)) || (IsMonth(toks[0].field) && IsDay(toks[2].field)))))
  }

  lemma ShapeOfDate(a: Token, sep: char, b: Token, c: Token)
    requires a.FieldToken? && b.FieldToken? && c.FieldToken?
    requires a.field == Year4 || (!IsWordChar(sep) && !IsDayOrMonth(c.field) &&
               ((IsDay(a.field) && IsMonth(b.field)) || (IsMonth(a.field) && IsDay(b.field))))
    ensures CheckShape(DateTokens(a, sep, b, c))
    ensures CheckShape(WithMinutes(DateTokens(a, sep, b, c)))
    ensures CheckShape(WithSeconds(DateTokens(a, sep, b, c)))
  {
    var d := DateTokens(a, sep, b, c);
    var m := WithMinutes(d);
    var w := WithSeconds(d);
    assert d[4..] == [c];
    assert m[4..] == [c, Sep(' '), HH, Sep(':'), MI];
    assert w[4..] == [c, Sep(' '), HH, Sep(':'), MI, Sep(':'), SS];
    assert m[..5] == d && w[..5] == d;
  }

  // Every candidate has the shape the plausibility check expects;
  // `CandidateShape(i)` dispatches to groups of three indices each, to keep
  // each proof small.

  lemma CandidateShape0(i: nat)
    requires 0 <= i < 3 && i < |CandidateTokens|
    ensures CheckShape(CandidateTokens[i])
  {
    if i == 0 { ShapeOfDate(Y4, '-', MM, DD); }
    else if i == 1 { ShapeOfDate(Y4, '/', MM, DD); }
    else if i == 2 { ShapeOfDate(DD, '/', MM, Y4); }
  }

  lemma CandidateShape1(i: nat)
    requires 3 <= i < 6 && i < |CandidateTokens|
    ensures CheckShape(CandidateTokens[i])
  {
    if i == 3 { ShapeOfDate(MM, '/', DD, Y4); }
    else if i == 4 { ShapeOfDate(Y4, '-', MM, DD); }
    else if i == 5 { ShapeOfDate(Y4, '/', MM, DD); }
  }

  lemma CandidateShape2(i: nat)
    requires 6 <= i < 9 && i < |CandidateTokens|
    ensures CheckShape(CandidateTokens[i])
  {
    if i == 6 { ShapeOfDate(DD, '/', MM, Y4); }
    else if i == 7 { ShapeOfDate(MM, '/', DD, Y4); }
    else if i == 8 { ShapeOfDate(Y4, '-', MM, DD); }
  }

  lemma CandidateShape3(i: nat)
    requires 9 <= i < 12 && i < |CandidateTokens|
    ensures CheckShape(CandidateTokens[i])
  {
    if i == 9 { ShapeOfDate(Y4, '/', MM, DD); }
    else if i == 10 { ShapeOfDate(Y4, '.', MM, DD); }
    else if i == 11 { ShapeOfDate(DD, '/', MM, Y4); }
  }

  lemma CandidateShape4(i: nat)
    requires 12 <= i < 15 && i < |CandidateTokens|
    ensures CheckShape(CandidateTokens[i])
  {
    if i == 12 { ShapeOfDate(D1, '/', M1, Y4); }
    else if i == 13 { ShapeOfDate(MM, '/', DD, Y4); }
    else if i == 14 { ShapeOfDate(M1, '/', D1, Y4); }
  }

  lemma CandidateShape5(i: nat)
    requires 15 <= i < 18 && i < |CandidateTokens|
    ensures CheckShape(CandidateTokens[i])
  {
    if i == 15 { ShapeOfDate(DD, '-', MM, Y4); }
    else if i == 16 { ShapeOfDate(D1, '-', M1, Y4); }
    else if i == 17 { ShapeOfDate(MM, '-', DD, Y4); }
  }

  lemma CandidateShape6(i: nat)
    requires 18 <= i < 21 && i < |CandidateTokens|
    ensures CheckShape(CandidateTokens[i])
  {
    if i == 18 { ShapeOfDate(M1, '-', D1, Y4); }
    else if i == 19 { ShapeOfDate(DD, '.', MM, Y4); }
    else if i == 20 { ShapeOfDate(D1, '.', M1, Y4); }
  }

  lemma CandidateShape7(i: nat)
    requires 21 <= i < 24 && i < |CandidateTokens|
    ensures CheckShape(CandidateTokens[i])
  {
    if i == 21 { ShapeOfDate(MM, '.', DD, Y4); }
    else if i == 22 { ShapeOfDate(M1, '.', D1, Y4); }
    else if i == 23 { ShapeOfDate(DD, '/', MM, Y2); }
  }

  lemma CandidateShape8(i: nat)
    requires 24 <= i < 27 && i < |CandidateTokens|
    ensures CheckShape(CandidateTokens[i])
  {
    if i == 24 { ShapeOfDate(MM, '/', DD, Y2); }
    else if i == 25 { ShapeOfDate(DD, '/', MM, Y2); }
    else if i == 26 { ShapeOfDate(D1, '/', M1, Y2); }
  }

  lemma CandidateShape9(i: nat)
    requires 27 <= i < 30 && i < |CandidateTokens|
    ensures CheckShape(CandidateTokens[i])
  {
    if i == 27 { ShapeOfDate(MM, '/', DD, Y2); }
    else if i == 28 { ShapeOfDate(M1, '/', D1, Y2); }
    else if i == 29 { }
  }

  lemma CandidateShape(i: nat)
    requires i < |CandidateTokens|
    ensures CheckShape(CandidateTokens[i])
  {
    if i < 3 { CandidateShape0(i); }
    else if i < 6 { CandidateShape1(i); }
    else if i < 9 { CandidateShape2(i); }
    else if i < 12 { CandidateShape3(i); }
    else if i < 15 { CandidateShape4(i); }
    else if i < 18 { CandidateShape5(i); }
    else if i < 21 { CandidateShape6(i); }
    else if i < 24 { CandidateShape7(i); }
    else if i < 27 { CandidateShape8(i); }
    else { CandidateShape9(i); }
  }

  /** `Split` at a first separator found at index `n`. */
  lemma SplitAt(x: string, n: nat, sep: char)
    requires n < |x| && x[n] == sep && sep !in x[..n]
    ensures Split(x, sep) == [x[..n]] + Split(x[n + 1..], sep)
  {
    assert x == x[..n] + [sep] + x[n + 1..];
    SplitPrefix(x[..n], x[n + 1..], sep);
  }

  /** The first two '-'-parts of a day-and-month-first match are the digits
      the two fields read. */
  lemma LeadingParts(s: string, n1: nat, n2: nat)
    requires 1 <= n1 && n1 + 1 + n2 < |s| && 1 <= n2
    requires AllDigits(s[..n1]) && AllDigits(s[n1 + 1..][..n2])
    requires !IsWordChar(s[n1]) && !IsWordChar(s[n1 + 1 + n2])
    ensures var parts := Split(ReplaceNonWord(s), '-');
            |parts| >= 2 && parts[0] == s[..n1] && parts[1] == s[n1 + 1..][..n2]
  {
    var t := s[n1 + 1..];
    DigitRunThenSeparator(s, n1);
    ReplaceNonWordSuffix(s, n1 + 1);
    assert t[n2] == s[n1 + 1 + n2];
    DigitRunThenSeparator(t, n2);
  }

  /** Digits followed by a non-word character: the first '-'-part is the digits. */
  lemma DigitRunThenSeparator(s: string, n: nat)
    requires n < |s| && AllDigits(s[..n]) && !IsWordChar(s[n])
    ensures Split(ReplaceNonWord(s), '-') == [s[..n]] + Split(ReplaceNonWord(s)[n + 1..], '-')
  {
    var x := ReplaceNonWord(s);
    assert x[..n] == s[..n] by {
      forall k | 0 <= k < n ensures x[k] == s[k] { assert IsDigit(s[..n][k]); }
    }
    assert '-' !in x[..n] by {
      forall k | 0 <= k < n ensures x[..n][k] != '-' { assert IsDigit(s[..n][k]); }
    }
    SplitAt(x, n, '-');
  }

  lemma ReplaceNonWordSuffix(s: string, k: nat)
    requires k <= |s|
    ensures ReplaceNonWord(s)[k..] == ReplaceNonWord(s[k..])
  {
  }

  /** Setting a day and a month field, in either order. */
  lemma SetDayAndMonth(acc: Fields, f1: Field, v1: nat, f2: Field, v2: nat)
    requires (IsDay(f1) && IsMonth(f2)) || (IsMonth(f1) && IsDay(f2))
    ensures var a := SetField(SetField(acc, f1, v1, ReferenceYear), f2, v2, ReferenceYear);
            (IsDay(f1) ==> a.day == v1 && a.month == v2) && (IsMonth(f1) ==> a.month == v1 && a.day == v2)
  {
  }

  /** For a day-and-month-first token shape the first part is the day field's
      digits and the second the month's, or the other way round. */
  lemma LeadingPairAgrees(s: string, toks: seq<Token>, dt: DateTime)
    requires CheckShape(toks) && !(toks[0].field == Year4 || toks[0].field == Year2)
    requires ScanTokens(s, toks, Fields(ReferenceYear, false, 1, 1, 0, 0, 0), ReferenceYear).Some?
    requires var fs := ScanTokens(s, toks, Fields(ReferenceYear, false, 1, 1, 0, 0, 0), ReferenceYear).value.0;
             dt.day == fs.day && dt.month == fs.month
    ensures var parts := Split(ReplaceNonWord(s), '-');
            |parts| >= 2 &&
            (IsDay(toks[0].field) ==> ParseInt(parts[0]) == Some(dt.day) && ParseInt(parts[1]) == Some(dt.month)) &&
            (IsMonth(toks[0].field) ==> ParseInt(parts[0]) == Some(dt.month) && ParseInt(parts[1]) == Some(dt.day))
  {
    var acc := Fields(ReferenceYear, false, 1, 1, 0, 0, 0);
    var f1, c1, f2, c2 := toks[0].field, toks[1].c, toks[2].field, toks[3].c;
    var rest := toks[4..];
    assert toks == [FieldToken(f1), Literal(c1), FieldToken(f2), Literal(c2)] + rest;
    ScanLeadingPair(s, f1, c1, f2, c2, rest, acc, ReferenceYear);
    var n1 := FieldLength(s, f1);
    var n2 := FieldLength(s[n1 + 1..], f2);
    var v1 := DigitsValue(s[..n1]);
    var v2 := DigitsValue(s[n1 + 1..][..n2]);
    var a2 := SetField(SetField(acc, f1, v1, ReferenceYear), f2, v2, ReferenceYear);
    var after := s[n1 + 1 + n2 + 1..];
    assert ScanTokens(s, toks, acc, ReferenceYear) == ScanTokens(after, rest, a2, ReferenceYear);
    ScanKeepsDayMonth(after, rest, a2, ReferenceYear);
    assert dt.day == a2.day && dt.month == a2.month;
    SetDayAndMonth(acc, f1, v1, f2, v2);
    LeadingParts(s, n1, n2);
    ParseIntOfDigits(s[..n1]);
    ParseIntOfDigits(s[n1 + 1..][..n2]);
  }

  /** The check in lines 74-92 never rejects a candidate that parsed: the loop
      returns the first candidate that parses. */
  lemma CheckNeverRejects(s: string, i: nat)
    requires i < |FormatStrings|
    ensures Accepts(s, FormatStrings[i]) <==> ParsePattern(s, FormatStrings[i], ReferenceYear).Some?
  {
    if ParsePattern(s, FormatStrings[i], ReferenceYear).Some? {
      ParsedIsPlausible(s, i);
    }
  }

  /** A candidate that parsed passes the check. */
  lemma ParsedIsPlausible(s: string, i: nat)
    requires i < |FormatStrings| && ParsePattern(s, FormatStrings[i], ReferenceYear).Some?
    ensures Plausible(s, FormatStrings[i], ParsePattern(s, FormatStrings[i], ReferenceYear).value)
  {
    var fmt := FormatStrings[i];
    var r := ParsePattern(s, fmt, ReferenceYear);
    CandidateFirstLetter(i);
    var toks := CandidateTokens[i];
    var acc := Fields(ReferenceYear, false, 1, 1, 0, 0, 0);
    assert ScanTokens(s, toks, acc, ReferenceYear).Some?;
    if toks[0].field == Year4 || toks[0].field == Year2 {
      assert ToLower(fmt)[0] == 'y';
    } else {
      LeadingPairAgrees(s, toks, r.value);
      if IsDay(toks[0].field) {
        assert ToLower(fmt)[0] == 'd';
      } else {
        assert IsMonth(toks[0].field);
        assert ToLower(fmt)[0] == 'm';
      }
    }
  }

  /** A candidate's token shape, and the lower-cased first letter of its format string. */
  lemma CandidateFirstLetter(i: nat)
    requires i < |FormatStrings|
    ensures |CandidateTokens| == |FormatStrings|
    ensures Tokenize(FormatStrings[i]) == CandidateTokens[i] && CheckShape(CandidateTokens[i])
    ensures var f := CandidateTokens[i][0].field;
            |FormatStrings[i]| > 0 &&
            ToLower(FormatStrings[i])[0] == (if IsDay(f) then 'd' else if IsMonth(f) then 'm' else 'y')
  {
    CandidateTokenize(i);
    CandidateRender(i);
    CandidateShape(i);
    var toks := CandidateTokens[i];
    var fmt := FormatStrings[i];
    RenderStart(toks);
    assert fmt[0] == FieldLetter(toks[0].field);
    assert ToLower(fmt)[0] == LowerChar(fmt[0]);
  }

  predicate Parses(s: string, fmt: string) {
    ParsePattern(s, fmt, ReferenceYear).Some?
  }

  /** Where acceptance is parsing, the first accepted format is the first that parses. */
  lemma {:induction false} FirstAcceptedIsFirstParsing(s: string, fmts: seq<string>)
    requires forall j :: 0 <= j < |fmts| ==> (Accepts(s, fmts[j]) <==> Parses(s, fmts[j]))
    ensures var r := FirstAccepted(s, fmts);
            (r.formatUsed.None? <==> forall j :: 0 <= j < |fmts| ==> !Parses(s, fmts[j])) &&
            (r.formatUsed.Some? ==>
               r.date == ParsePattern(s, r.formatUsed.value, ReferenceYear) && r.date.Some? &&
               exists i :: 0 <= i < |fmts| && fmts[i] == r.formatUsed.value &&
                           forall j :: 0 <= j < i ==> !Parses(s, fmts[j]))
  {
    FirstAcceptedIsFirst(s, fmts);
    var r := FirstAccepted(s, fmts);
    if r.formatUsed.Some? {
      var i :| 0 <= i < |fmts| && fmts[i] == r.formatUsed.value && forall j :: 0 <= j < i ==> !Accepts(s, fmts[j]);
      assert forall j :: 0 <= j < i ==> !Parses(s, fmts[j]);
    }
  }

  /** Past the blank and ISO cases, the function returns the first candidate
      format that parses, with its date; and nothing exactly when none does. */
  lemma AttemptParseDatePicksFirstParsing(s: string)
    requires Trim(s) != "" && ParseIso(s).None?
    ensures var r := AttemptParseDate(s);
            (r.formatUsed.None? <==> forall j :: 0 <= j < |FormatStrings| ==> !Parses(s, FormatStrings[j])) &&
            (r.formatUsed.Some? ==>
               r.date == ParsePattern(s, r.formatUsed.value, ReferenceYear) && r.date.Some? &&
               exists i :: 0 <= i < |FormatStrings| && FormatStrings[i] == r.formatUsed.value &&
                           forall j :: 0 <= j < i ==> !Parses(s, FormatStrings[j]))
  {
    forall j | 0 <= j < |FormatStrings|
      ensures Accepts(s, FormatStrings[j]) <==> Parses(s, FormatStrings[j])
    {
      CheckNeverRejects(s, j);
    }
    FirstAcceptedIsFirstParsing(s, FormatStrings);
  }
}
