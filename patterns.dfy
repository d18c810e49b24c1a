/** date-fns `parse(dateString, formatString, referenceDate)` followed by `isValid`,
    for the tokens the import's candidate formats use. A format string is cut into
    tokens (a run of one letter is a field, any other character a literal); the
    fields are read left to right the way date-fns reads them, and the result is
    valid only when every field is in range. */
module DatePatterns {
  import opened Wrappers
  import opened Text
  import opened Calendar

  /** `yyyy`, `yy`, `MM`, `M`, `dd`, `d`, `HH`, `mm`, `ss`; any other run of letters is unsupported. */
  datatype Field = Year4 | Year2 | Month2 | Month1 | Day2 | Day1 | Hour2 | Minute2 | Second2 | Unsupported

  datatype Token = FieldToken(field: Field) | Literal(c: char)

  predicate IsLatinLetter(c: char) { ('a' <= c <= 'z') || ('A' <= c <= 'Z') }

  /** The number of leading copies of `c` in `s`. */
  function RunLength(s: string, c: char): (n: nat)
    ensures n <= |s|
    ensures forall k :: 0 <= k < n ==> s[k] == c
    ensures n < |s| ==> s[n] != c
  {
    if s == [] || s[0] != c then 0 else 1 + RunLength(s[1..], c)
  }

  function FieldOf(c: char, n: nat): Field {
    if c == 'y' && n == 4 then Year4
    else if c == 'y' && n == 2 then Year2
    else if c == 'M' && n == 2 then Month2
    else if c == 'M' && n == 1 then Month1
    else if c == 'd' && n == 2 then Day2
    else if c == 'd' && n == 1 then Day1
    else if c == 'H' && n == 2 then Hour2
    else if c == 'm' && n == 2 then Minute2
    else if c == 's' && n == 2 then Second2
    else Unsupported
  }

  function Tokenize(fmt: string): seq<Token>
    decreases |fmt|
  {
    if fmt == [] then []
    else if IsLatinLetter(fmt[0]) then
      var n := RunLength(fmt, fmt[0]);
      [FieldToken(FieldOf(fmt[0], n))] + Tokenize(fmt[n..])
    else [Literal(fmt[0])] + Tokenize(fmt[1..])
  }

  /** The length of the longest run of at most `max` leading digits (`/^\d{1,max}/`). */
  function LeadingDigits(s: string, max: nat): (n: nat)
    ensures n <= max && n <= |s|
    ensures AllDigits(s[..n])
    ensures n < max && n < |s| ==> !IsDigit(s[n])
  {
    if max == 0 || s == [] || !IsDigit(s[0]) then 0
    else
      var n := 1 + LeadingDigits(s[1..], max - 1);
      assert s[..n] == [s[0]] + s[1..][..n - 1];
      n
  }

  /** The day token `d`: `/^(3[01]|[12]?\d)/`. */
  function DayOfMonthLength(s: string): (n: nat)
    ensures n <= 2 && n <= |s| && AllDigits(s[..n])
  {
    if |s| >= 2 && s[0] == '3' && (s[1] == '0' || s[1] == '1') then 2
    else if |s| >= 2 && (s[0] == '1' || s[0] == '2') && IsDigit(s[1]) then 2
    else if |s| >= 1 && IsDigit(s[0]) then 1
    else 0
  }

  /** The month token `M`: `/^(1[0-2]|0?\d)/`. */
  function MonthLength(s: string): (n: nat)
    ensures n <= 2 && n <= |s| && AllDigits(s[..n])
  {
    if |s| >= 2 && s[0] == '1' && '0' <= s[1] <= '2' then 2
    else if |s| >= 2 && s[0] == '0' && IsDigit(s[1]) then 2
    else if |s| >= 1 && IsDigit(s[0]) then 1
    else 0
  }

  /** How many characters a field token takes from the front of `s` (0: no match). */
  function FieldLength(s: string, f: Field): (n: nat)
    ensures n <= |s| && AllDigits(s[..n])
    ensures f != Year4 ==> n <= 2 && DigitsValue(s[..n]) < 100
  {
    assert Power10(2) == 100 && Power10(1) == 10;
    match f
    case Year4 => LeadingDigits(s, 4)
    case Month1 => MonthLength(s)
    case Day1 => DayOfMonthLength(s)
    case Unsupported => 0
    case _ => LeadingDigits(s, 2)
  }

  /** The fields read so far; those a format does not mention keep their defaults. */
  datatype Fields = Fields(year: int, twoDigitYear: bool, month: int, day: int,
                           hour: int, minute: int, second: int)

  function SetField(acc: Fields, f: Field, v: nat, refYear: int): Fields
    requires refYear > 50
    requires f == Year2 ==> v < 100
  {
    match f
    case Year4 => acc.(year := v, twoDigitYear := false)
    case Year2 => acc.(year := NormalizeTwoDigitYear(v, refYear), twoDigitYear := true)
    case Month2 => acc.(month := v)
    case Month1 => acc.(month := v)
    case Day2 => acc.(day := v)
    case Day1 => acc.(day := v)
    case Hour2 => acc.(hour := v)
    case Minute2 => acc.(minute := v)
    case Second2 => acc.(second := v)
    case Unsupported => acc
  }

  /** Reads the tokens in order; a literal must appear verbatim, a field must match
      at least one digit. Gives the fields read and the unread rest of the string. */
  function ScanTokens(s: string, toks: seq<Token>, acc: Fields, refYear: int): Option<(Fields, string)>
    requires refYear > 50
    decreases toks
  {
    if toks == [] then Some((acc, s))
    else match toks[0]
      case Literal(c) =>
        if |s| > 0 && s[0] == c then ScanTokens(s[1..], toks[1..], acc, refYear) else None
      case FieldToken(f) =>
        var n := FieldLength(s, f);
        if n == 0 then None
        else
          var v := DigitsValue(s[..n]);
          ScanTokens(s[n..], toks[1..], SetField(acc, f, v, refYear), refYear)
  }

  /** The result of `parse` on a format, `None` where `isValid` says no. Unread
      trailing white space is allowed; a `yyyy` year must be positive. */
  function ParsePattern(s: string, fmt: string, refYear: int): (r: Option<DateTime>)
    requires refYear > 50
    ensures r.Some? ==> Valid(r.value)
  {
    match ScanTokens(s, Tokenize(fmt), Fields(refYear, false, 1, 1, 0, 0, 0), refYear)
    case None => None
    case Some((fs, rest)) =>
      var dt := DateTime(fs.year, fs.month, fs.day, fs.hour, fs.minute, fs.second);
      if AllSpace(rest) && Valid(dt) && (fs.twoDigitYear || fs.year > 0) then Some(dt) else None
  }

  /** The candidate formats, in the order they are tried. */
  const FormatStrings: seq<string> := [
    "yyyy-MM-dd HH:mm:ss", "yyyy/MM/dd HH:mm:ss", "dd/MM/yyyy HH:mm:ss", "MM/dd/yyyy HH:mm:ss",
    "yyyy-MM-dd HH:mm", "yyyy/MM/dd HH:mm", "dd/MM/yyyy HH:mm", "MM/dd/yyyy HH:mm",
    "yyyy-MM-dd", "yyyy/MM/dd", "yyyy.MM.dd",
    "dd/MM/yyyy", "d/M/yyyy",
    "MM/dd/yyyy", "M/d/yyyy",
    "dd-MM-yyyy", "d-M-yyyy",
    "MM-dd-yyyy", "M-d-yyyy",
    "dd.MM.yyyy", "d.M.yyyy",
    "MM.dd.yyyy", "M.d.yyyy",
    "dd/MM/yy HH:mm", "MM/dd/yy HH:mm",
    "dd/MM/yy", "d/M/yy",
    "MM/dd/yy", "M/d/yy",
    "yyyyMMdd"
  ]

  // ---- The token form of a format string, and the round trip Tokenize(Render(t)) == t ----

  function FieldLetter(f: Field): char {
    match f
    case Year4 => 'y' case Year2 => 'y' case Month2 => 'M' case Month1 => 'M'
    case Day2 => 'd' case Day1 => 'd' case Hour2 => 'H' case Minute2 => 'm'
    case Second2 => 's' case Unsupported => 'X'
  }

  function FieldWidth(f: Field): nat {
    match f
    case Year4 => 4 case Year2 => 2 case Month1 => 1 case Day1 => 1
    case Unsupported => 0 case _ => 2
  }

  function Repeat(c: char, n: nat): (r: string)
    ensures |r| == n && forall k :: 0 <= k < n ==> r[k] == c
  {
    if n == 0 then [] else [c] + Repeat(c, n - 1)
  }

  function RenderToken(t: Token): string {
    match t
    case Literal(c) => [c]
    case FieldToken(f) => Repeat(FieldLetter(f), FieldWidth(f))
  }

  /** The format string a token sequence is read from. */
  function Render(toks: seq<Token>): string {
    if toks == [] then [] else RenderToken(toks[0]) + Render(toks[1..])
  }

  /** Literals are not letters, and two neighbouring fields use different letters. */
  predicate WellFormed(toks: seq<Token>) {
    (forall i :: 0 <= i < |toks| ==> match toks[i]
       case Literal(c) => !IsLatinLetter(c)
       case FieldToken(f) => f != Unsupported)
    && (forall i :: 0 <= i < |toks| - 1 && toks[i].FieldToken? && toks[i + 1].FieldToken? ==>
          FieldLetter(toks[i].field) != FieldLetter(toks[i + 1].field))
  }

  lemma {:induction false} RunLengthAfterRepeat(c: char, n: nat, rest: string)
    requires rest == [] || rest[0] != c
    ensures RunLength(Repeat(c, n) + rest, c) == n
  {
    if n > 0 {
      assert (Repeat(c, n) + rest)[1..] == Repeat(c, n - 1) + rest;
      RunLengthAfterRepeat(c, n - 1, rest);
    }
  }

  lemma {:induction false} RenderStart(toks: seq<Token>)
    requires WellFormed(toks) && toks != [] && toks[0].FieldToken?
    ensures Render(toks) != [] && Render(toks)[0] == FieldLetter(toks[0].field)
  {
  }

  lemma WellFormedTail(toks: seq<Token>)
    requires WellFormed(toks) && toks != []
    ensures WellFormed(toks[1..])
  {
    var rest := toks[1..];
    forall i | 0 <= i < |rest| - 1 && rest[i].FieldToken? && rest[i + 1].FieldToken?
      ensures FieldLetter(rest[i].field) != FieldLetter(rest[i + 1].field)
    {
      assert rest[i] == toks[i + 1] && rest[i + 1] == toks[i + 2];
    }
  }

  lemma TokenizeLiteral(c: char, tail: string)
    requires !IsLatinLetter(c)
    ensures Tokenize([c] + tail) == [Literal(c)] + Tokenize(tail)
  {
    assert ([c] + tail)[1..] == tail;
  }

  lemma TokenizeField(f: Field, tail: string)
    requires f != Unsupported
    requires tail == [] || tail[0] != FieldLetter(f)
    ensures Tokenize(Repeat(FieldLetter(f), FieldWidth(f)) + tail) == [FieldToken(f)] + Tokenize(tail)
  {
    var c, n := FieldLetter(f), FieldWidth(f);
    var s := Repeat(c, n) + tail;
    assert s[0] == c && IsLatinLetter(c);
    RunLengthAfterRepeat(c, n, tail);
    assert FieldOf(c, n) == f;
    assert s[n..] == tail;
  }

  /** Reading a well-formed token sequence back from its format string gives it again. */
  lemma {:induction false} TokenizeRender(toks: seq<Token>)
    requires WellFormed(toks)
    ensures Tokenize(Render(toks)) == toks
  {
    if toks != [] {
      var rest := toks[1..];
      WellFormedTail(toks);
      TokenizeRender(rest);
      var tail := Render(rest);
      assert toks == [toks[0]] + rest;
      match toks[0]
      case Literal(c) =>
        assert Render(toks) == [c] + tail;
        TokenizeLiteral(c, tail);
      case FieldToken(f) =>
        var c := FieldLetter(f);
        assert Render(toks) == Repeat(c, FieldWidth(f)) + tail;
        assert tail == [] || tail[0] != c by {
          if tail != [] {
            match rest[0]
            case Literal(c') => assert tail[0] == c' && !IsLatinLetter(c');
            case FieldToken(g) =>
              assert FieldWidth(g) > 0;
              RenderStart(rest);
          }
        }
        TokenizeField(f, tail);
    }
  }

  /** The candidate formats as tokens: `CandidatesRender` proves they are the format strings. */
  const Y4 := FieldToken(Year4)
  const Y2 := FieldToken(Year2)
  const MM := FieldToken(Month2)
  const M1 := FieldToken(Month1)
  const DD := FieldToken(Day2)
  const D1 := FieldToken(Day1)
  const HH := FieldToken(Hour2)
  const MI := FieldToken(Minute2)
  const SS := FieldToken(Second2)

  function Sep(c: char): Token { Literal(c) }

  /** A date of three fields with one separator, as in `dd/MM/yyyy`. */
  function DateTokens(a: Token, sep: char, b: Token, c: Token): seq<Token> {
    [a, Sep(sep), b, Sep(sep), c]
  }

  /** A date followed by ` HH:mm`. */
  function WithMinutes(date: seq<Token>): seq<Token> {
    date + [Sep(' '), HH, Sep(':'), MI]
  }

  /** A date followed by ` HH:mm:ss`. */
  function WithSeconds(date: seq<Token>): seq<Token> {
    WithMinutes(date) + [Sep(':'), SS]
  }

  const CandidateTokens: seq<seq<Token>> := [
    WithSeconds(DateTokens(Y4, '-', MM, DD)), WithSeconds(DateTokens(Y4, '/', MM, DD)),
    WithSeconds(DateTokens(DD, '/', MM, Y4)), WithSeconds(DateTokens(MM, '/', DD, Y4)),
    WithMinutes(DateTokens(Y4, '-', MM, DD)), WithMinutes(DateTokens(Y4, '/', MM, DD)),
    WithMinutes(DateTokens(DD, '/', MM, Y4)), WithMinutes(DateTokens(MM, '/', DD, Y4)),
    DateTokens(Y4, '-', MM, DD), DateTokens(Y4, '/', MM, DD), DateTokens(Y4, '.', MM, DD),
    DateTokens(DD, '/', MM, Y4), DateTokens(D1, '/', M1, Y4),
    DateTokens(MM, '/', DD, Y4), DateTokens(M1, '/', D1, Y4),
    DateTokens(DD, '-', MM, Y4), DateTokens(D1, '-', M1, Y4),
    DateTokens(MM, '-', DD, Y4), DateTokens(M1, '-', D1, Y4),
    DateTokens(DD, '.', MM, Y4), DateTokens(D1, '.', M1, Y4),
    DateTokens(MM, '.', DD, Y4), DateTokens(M1, '.', D1, Y4),
    WithMinutes(DateTokens(DD, '/', MM, Y2)), WithMinutes(DateTokens(MM, '/', DD, Y2)),
    DateTokens(DD, '/', MM, Y2), DateTokens(D1, '/', M1, Y2),
    DateTokens(MM, '/', DD, Y2), DateTokens(M1, '/', D1, Y2),
    [Y4, MM, DD]
  ]

  lemma RenderCons(t: Token, rest: seq<Token>)
    ensures Render([t] + rest) == RenderToken(t) + Render(rest)
  {
    assert ([t] + rest)[0] == t && ([t] + rest)[1..] == rest;
  }

  lemma {:induction false} RenderAppend(x: seq<Token>, y: seq<Token>)
    ensures Render(x + y) == Render(x) + Render(y)
  {
    if x != [] {
      RenderAppend(x[1..], y);
      assert x + y == [x[0]] + (x[1..] + y);
      RenderCons(x[0], x[1..] + y);
      RenderCons(x[0], x[1..]);
      assert x == [x[0]] + x[1..];
    } else {
      assert x + y == y;
    }
  }

  lemma TokenStrings()
    ensures RenderToken(Y4) == "yyyy" && RenderToken(Y2) == "yy"
    ensures RenderToken(MM) == "MM" && RenderToken(M1) == "M"
    ensures RenderToken(DD) == "dd" && RenderToken(D1) == "d"
    ensures RenderToken(HH) == "HH" && RenderToken(MI) == "mm" && RenderToken(SS) == "ss"
  {
    assert Repeat('y', 4) == "yyyy";
  }

  lemma RenderDate(a: Token, sep: char, b: Token, c: Token)
    ensures Render(DateTokens(a, sep, b, c))
         == RenderToken(a) + [sep] + RenderToken(b) + [sep] + RenderToken(c)
  {
    RenderCons(c, []);
    RenderCons(Sep(sep), [c]);
    RenderCons(b, [Sep(sep), c]);
    RenderCons(Sep(sep), [b, Sep(sep), c]);
    RenderCons(a, [Sep(sep), b, Sep(sep), c]);
  }

  lemma RenderMinutesSuffix()
    ensures Render([Sep(' '), HH, Sep(':'), MI]) == " HH:mm"
  {
    TokenStrings();
    RenderCons(MI, []);
    RenderCons(Sep(':'), [MI]);
    RenderCons(HH, [Sep(':'), MI]);
    RenderCons(Sep(' '), [HH, Sep(':'), MI]);
  }

  lemma RenderSecondsSuffix()
    ensures Render([Sep(':'), SS]) == ":ss"
  {
    TokenStrings();
    RenderCons(SS, []);
    RenderCons(Sep(':'), [SS]);
  }

  lemma RenderTime(date: seq<Token>)
    ensures Render(WithMinutes(date)) == Render(date) + " HH:mm"
    ensures Render(WithSeconds(date)) == Render(date) + " HH:mm:ss"
  {
    RenderMinutesSuffix();
    RenderSecondsSuffix();
    RenderAppend(date, [Sep(' '), HH, Sep(':'), MI]);
    RenderAppend(WithMinutes(date), [Sep(':'), SS]);
    assert Render(date) + " HH:mm" + ":ss" == Render(date) + " HH:mm:ss";
  }

  // ---- The candidate formats, one index at a time ----
  //
  // For each position `k` of the candidate list, `CandidateAtk` names the
  // token sequence and format string stored there, and `CandidateRenderk`
  // (with `DateRenderk` for its date part) shows that rendering those tokens
  // gives that string. `CandidateRender(i)` gathers them into the one fact
  // `Render(CandidateTokens[i]) == FormatStrings[i]`; they are split by index
  // so that each proof unfolds a single literal of the list.

  lemma DateRender0()
    ensures Render(DateTokens(Y4, '-', MM, DD)) == "yyyy-MM-dd"
  {
    TokenStrings();
    RenderDate(Y4, '-', MM, DD);
  }

  lemma CandidateRender0()
    ensures Render(WithSeconds(DateTokens(Y4, '-', MM, DD))) == "yyyy-MM-dd HH:mm:ss"
  {
    DateRender0();
    RenderTime(DateTokens(Y4, '-', MM, DD));
  }

  lemma CandidateAt0()
    ensures CandidateTokens[0] == WithSeconds(DateTokens(Y4, '-', MM, DD)) && FormatStrings[0] == "yyyy-MM-dd HH:mm:ss"
  {
  }

  lemma DateRender1()
    ensures Render(DateTokens(Y4, '/', MM, DD)) == "yyyy/MM/dd"
  {
    TokenStrings();
    RenderDate(Y4, '/', MM, DD);
  }

  lemma CandidateRender1()
    ensures Render(WithSeconds(DateTokens(Y4, '/', MM, DD))) == "yyyy/MM/dd HH:mm:ss"
  {
    DateRender1();
    RenderTime(DateTokens(Y4, '/', MM, DD));
  }

  lemma CandidateAt1()
    ensures CandidateTokens[1] == WithSeconds(DateTokens(Y4, '/', MM, DD)) && FormatStrings[1] == "yyyy/MM/dd HH:mm:ss"
  {
  }

  lemma DateRender2()
    ensures Render(DateTokens(DD, '/', MM, Y4)) == "dd/MM/yyyy"
  {
    TokenStrings();
    RenderDate(DD, '/', MM, Y4);
  }

  lemma CandidateRender2()
    ensures Render(WithSeconds(DateTokens(DD, '/', MM, Y4))) == "dd/MM/yyyy HH:mm:ss"
  {
    DateRender2();
    RenderTime(DateTokens(DD, '/', MM, Y4));
  }

  lemma CandidateAt2()
    ensures CandidateTokens[2] == WithSeconds(DateTokens(DD, '/', MM, Y4)) && FormatStrings[2] == "dd/MM/yyyy HH:mm:ss"
  {
  }

  lemma DateRender3()
    ensures Render(DateTokens(MM, '/', DD, Y4)) == "MM/dd/yyyy"
  {
    TokenStrings();
    RenderDate(MM, '/', DD, Y4);
  }

  lemma CandidateRender3()
    ensures Render(WithSeconds(DateTokens(MM, '/', DD, Y4))) == "MM/dd/yyyy HH:mm:ss"
  {
    DateRender3();
    RenderTime(DateTokens(MM, '/', DD, Y4));
  }

  lemma CandidateAt3()
    ensures CandidateTokens[3] == WithSeconds(DateTokens(MM, '/', DD, Y4)) && FormatStrings[3] == "MM/dd/yyyy HH:mm:ss"
  {
  }

  lemma DateRender4()
    ensures Render(DateTokens(Y4, '-', MM, DD)) == "yyyy-MM-dd"
  {
    TokenStrings();
    RenderDate(Y4, '-', MM, DD);
  }

  lemma CandidateRender4()
    ensures Render(WithMinutes(DateTokens(Y4, '-', MM, DD))) == "yyyy-MM-dd HH:mm"
  {
    DateRender4();
    RenderTime(DateTokens(Y4, '-', MM, DD));
  }

  lemma CandidateAt4()
    ensures CandidateTokens[4] == WithMinutes(DateTokens(Y4, '-', MM, DD)) && FormatStrings[4] == "yyyy-MM-dd HH:mm"
  {
  }

  lemma DateRender5()
    ensures Render(DateTokens(Y4, '/', MM, DD)) == "yyyy/MM/dd"
  {
    TokenStrings();
    RenderDate(Y4, '/', MM, DD);
  }

  lemma CandidateRender5()
    ensures Render(WithMinutes(DateTokens(Y4, '/', MM, DD))) == "yyyy/MM/dd HH:mm"
  {
    DateRender5();
    RenderTime(DateTokens(Y4, '/', MM, DD));
  }

  lemma CandidateAt5()
    ensures CandidateTokens[5] == WithMinutes(DateTokens(Y4, '/', MM, DD)) && FormatStrings[5] == "yyyy/MM/dd HH:mm"
  {
  }

  lemma DateRender6()
    ensures Render(DateTokens(DD, '/', MM, Y4)) == "dd/MM/yyyy"
  {
    TokenStrings();
    RenderDate(DD, '/', MM, Y4);
  }

  lemma CandidateRender6()
    ensures Render(WithMinutes(DateTokens(DD, '/', MM, Y4))) == "dd/MM/yyyy HH:mm"
  {
    DateRender6();
    RenderTime(DateTokens(DD, '/', MM, Y4));
  }

  lemma CandidateAt6()
    ensures CandidateTokens[6] == WithMinutes(DateTokens(DD, '/', MM, Y4)) && FormatStrings[6] == "dd/MM/yyyy HH:mm"
  {
  }

  lemma DateRender7()
    ensures Render(DateTokens(MM, '/', DD, Y4)) == "MM/dd/yyyy"
  {
    TokenStrings();
    RenderDate(MM, '/', DD, Y4);
  }

  lemma CandidateRender7()
    ensures Render(WithMinutes(DateTokens(MM, '/', DD, Y4))) == "MM/dd/yyyy HH:mm"
  {
    DateRender7();
    RenderTime(DateTokens(MM, '/', DD, Y4));
  }

  lemma CandidateAt7()
    ensures CandidateTokens[7] == WithMinutes(DateTokens(MM, '/', DD, Y4)) && FormatStrings[7] == "MM/dd/yyyy HH:mm"
  {
  }

  lemma CandidateRender8()
    ensures Render(DateTokens(Y4, '-', MM, DD)) == "yyyy-MM-dd"
  {
    TokenStrings();
    RenderDate(Y4, '-', MM, DD);
  }

  lemma CandidateAt8()
    ensures CandidateTokens[8] == DateTokens(Y4, '-', MM, DD) && FormatStrings[8] == "yyyy-MM-dd"
  {
  }

  lemma CandidateRender9()
    ensures Render(DateTokens(Y4, '/', MM, DD)) == "yyyy/MM/dd"
  {
    TokenStrings();
    RenderDate(Y4, '/', MM, DD);
  }

  lemma CandidateAt9()
    ensures CandidateTokens[9] == DateTokens(Y4, '/', MM, DD) && FormatStrings[9] == "yyyy/MM/dd"
  {
  }

  lemma CandidateRender10()
    ensures Render(DateTokens(Y4, '.', MM, DD)) == "yyyy.MM.dd"
  {
    TokenStrings();
    RenderDate(Y4, '.', MM, DD);
  }

  lemma CandidateAt10()
    ensures CandidateTokens[10] == DateTokens(Y4, '.', MM, DD) && FormatStrings[10] == "yyyy.MM.dd"
  {
  }

  lemma CandidateRender11()
    ensures Render(DateTokens(DD, '/', MM, Y4)) == "dd/MM/yyyy"
  {
    TokenStrings();
    RenderDate(DD, '/', MM, Y4);
  }

  lemma CandidateAt11()
    ensures CandidateTokens[11] == DateTokens(DD, '/', MM, Y4) && FormatStrings[11] == "dd/MM/yyyy"
  {
  }

  lemma CandidateRender12()
    ensures Render(DateTokens(D1, '/', M1, Y4)) == "d/M/yyyy"
  {
    TokenStrings();
    RenderDate(D1, '/', M1, Y4);
  }

  lemma CandidateAt12()
    ensures CandidateTokens[12] == DateTokens(D1, '/', M1, Y4) && FormatStrings[12] == "d/M/yyyy"
  {
  }

  lemma CandidateRender13()
    ensures Render(DateTokens(MM, '/', DD, Y4)) == "MM/dd/yyyy"
  {
    TokenStrings();
    RenderDate(MM, '/', DD, Y4);
  }

  lemma CandidateAt13()
    ensures CandidateTokens[13] == DateTokens(MM, '/', DD, Y4) && FormatStrings[13] == "MM/dd/yyyy"
  {
  }

  lemma CandidateRender14()
    ensures Render(DateTokens(M1, '/', D1, Y4)) == "M/d/yyyy"
  {
    TokenStrings();
    RenderDate(M1, '/', D1, Y4);
  }

  lemma CandidateAt14()
    ensures CandidateTokens[14] == DateTokens(M1, '/', D1, Y4) && FormatStrings[14] == "M/d/yyyy"
  {
  }

  lemma CandidateRender15()
    ensures Render(DateTokens(DD, '-', MM, Y4)) == "dd-MM-yyyy"
  {
    TokenStrings();
    RenderDate(DD, '-', MM, Y4);
  }

  lemma CandidateAt15()
    ensures CandidateTokens[15] == DateTokens(DD, '-', MM, Y4) && FormatStrings[15] == "dd-MM-yyyy"
  {
  }

  lemma CandidateRender16()
    ensures Render(DateTokens(D1, '-', M1, Y4)) == "d-M-yyyy"
  {
    TokenStrings();
    RenderDate(D1, '-', M1, Y4);
  }

  lemma CandidateAt16()
    ensures CandidateTokens[16] == DateTokens(D1, '-', M1, Y4) && FormatStrings[16] == "d-M-yyyy"
  {
  }

  lemma CandidateRender17()
    ensures Render(DateTokens(MM, '-', DD, Y4)) == "MM-dd-yyyy"
  {
    TokenStrings();
    RenderDate(MM, '-', DD, Y4);
  }

  lemma CandidateAt17()
    ensures CandidateTokens[17] == DateTokens(MM, '-', DD, Y4) && FormatStrings[17] == "MM-dd-yyyy"
  {
  }

  lemma CandidateRender18()
    ensures Render(DateTokens(M1, '-', D1, Y4)) == "M-d-yyyy"
  {
    TokenStrings();
    RenderDate(M1, '-', D1, Y4);
  }

  lemma CandidateAt18()
    ensures CandidateTokens[18] == DateTokens(M1, '-', D1, Y4) && FormatStrings[18] == "M-d-yyyy"
  {
  }

  lemma CandidateRender19()
    ensures Render(DateTokens(DD, '.', MM, Y4)) == "dd.MM.yyyy"
  {
    TokenStrings();
    RenderDate(DD, '.', MM, Y4);
  }

  lemma CandidateAt19()
    ensures CandidateTokens[19] == DateTokens(DD, '.', MM, Y4) && FormatStrings[19] == "dd.MM.yyyy"
  {
  }

  lemma CandidateRender20()
    ensures Render(DateTokens(D1, '.', M1, Y4)) == "d.M.yyyy"
  {
    TokenStrings();
    RenderDate(D1, '.', M1, Y4);
  }

  lemma CandidateAt20()
    ensures CandidateTokens[20] == DateTokens(D1, '.', M1, Y4) && FormatStrings[20] == "d.M.yyyy"
  {
  }

  lemma CandidateRender21()
    ensures Render(DateTokens(MM, '.', DD, Y4)) == "MM.dd.yyyy"
  {
    TokenStrings();
    RenderDate(MM, '.', DD, Y4);
  }

  lemma CandidateAt21()
    ensures CandidateTokens[21] == DateTokens(MM, '.', DD, Y4) && FormatStrings[21] == "MM.dd.yyyy"
  {
  }

  lemma CandidateRender22()
    ensures Render(DateTokens(M1, '.', D1, Y4)) == "M.d.yyyy"
  {
    TokenStrings();
    RenderDate(M1, '.', D1, Y4);
  }

  lemma CandidateAt22()
    ensures CandidateTokens[22] == DateTokens(M1, '.', D1, Y4) && FormatStrings[22] == "M.d.yyyy"
  {
  }

  lemma DateRender23()
    ensures Render(DateTokens(DD, '/', MM, Y2)) == "dd/MM/yy"
  {
    TokenStrings();
    RenderDate(DD, '/', MM, Y2);
  }

  lemma CandidateRender23()
    ensures Render(WithMinutes(DateTokens(DD, '/', MM, Y2))) == "dd/MM/yy HH:mm"
  {
    DateRender23();
    RenderTime(DateTokens(DD, '/', MM, Y2));
  }

  lemma CandidateAt23()
    ensures CandidateTokens[23] == WithMinutes(DateTokens(DD, '/', MM, Y2)) && FormatStrings[23] == "dd/MM/yy HH:mm"
  {
  }

  lemma DateRender24()
    ensures Render(DateTokens(MM, '/', DD, Y2)) == "MM/dd/yy"
  {
    TokenStrings();
    RenderDate(MM, '/', DD, Y2);
  }

  lemma CandidateRender24()
    ensures Render(WithMinutes(DateTokens(MM, '/', DD, Y2))) == "MM/dd/yy HH:mm"
  {
    DateRender24();
    RenderTime(DateTokens(MM, '/', DD, Y2));
  }

  lemma CandidateAt24()
    ensures CandidateTokens[24] == WithMinutes(DateTokens(MM, '/', DD, Y2)) && FormatStrings[24] == "MM/dd/yy HH:mm"
  {
  }

  lemma CandidateRender25()
    ensures Render(DateTokens(DD, '/', MM, Y2)) == "dd/MM/yy"
  {
    TokenStrings();
    RenderDate(DD, '/', MM, Y2);
  }

  lemma CandidateAt25()
    ensures CandidateTokens[25] == DateTokens(DD, '/', MM, Y2) && FormatStrings[25] == "dd/MM/yy"
  {
  }

  lemma CandidateRender26()
    ensures Render(DateTokens(D1, '/', M1, Y2)) == "d/M/yy"
  {
    TokenStrings();
    RenderDate(D1, '/', M1, Y2);
  }

  lemma CandidateAt26()
    ensures CandidateTokens[26] == DateTokens(D1, '/', M1, Y2) && FormatStrings[26] == "d/M/yy"
  {
  }

  lemma CandidateRender27()
    ensures Render(DateTokens(MM, '/', DD, Y2)) == "MM/dd/yy"
  {
    TokenStrings();
    RenderDate(MM, '/', DD, Y2);
  }

  lemma CandidateAt27()
    ensures CandidateTokens[27] == DateTokens(MM, '/', DD, Y2) && FormatStrings[27] == "MM/dd/yy"
  {
  }

  lemma CandidateRender28()
    ensures Render(DateTokens(M1, '/', D1, Y2)) == "M/d/yy"
  {
    TokenStrings();
    RenderDate(M1, '/', D1, Y2);
  }

  lemma CandidateAt28()
    ensures CandidateTokens[28] == DateTokens(M1, '/', D1, Y2) && FormatStrings[28] == "M/d/yy"
  {
  }

  lemma CandidateRender29()
    ensures Render([Y4, MM, DD]) == "yyyyMMdd"
  {
    TokenStrings();
    RenderCons(Y4, [MM, DD]); RenderCons(MM, [DD]); RenderCons(DD, []);
  }

  lemma CandidateAt29()
    ensures CandidateTokens[29] == [Y4, MM, DD] && FormatStrings[29] == "yyyyMMdd"
  {
  }

  lemma CandidateRender(i: nat)
    requires i < |FormatStrings|
    ensures |CandidateTokens| == |FormatStrings|
    ensures Render(CandidateTokens[i]) == FormatStrings[i]
  {
    if i == 0 { CandidateRender0(); CandidateAt0(); }
    else if i == 1 { CandidateRender1(); CandidateAt1(); }
    else if i == 2 { CandidateRender2(); CandidateAt2(); }
    else if i == 3 { CandidateRender3(); CandidateAt3(); }
    else if i == 4 { CandidateRender4(); CandidateAt4(); }
    else if i == 5 { CandidateRender5(); CandidateAt5(); }
    else if i == 6 { CandidateRender6(); CandidateAt6(); }
    else if i == 7 { CandidateRender7(); CandidateAt7(); }
    else if i == 8 { CandidateRender8(); CandidateAt8(); }
    else if i == 9 { CandidateRender9(); CandidateAt9(); }
    else if i == 10 { CandidateRender10(); CandidateAt10(); }
    else if i == 11 { CandidateRender11(); CandidateAt11(); }
    else if i == 12 { CandidateRender12(); CandidateAt12(); }
    else if i == 13 { CandidateRender13(); CandidateAt13(); }
    else if i == 14 { CandidateRender14(); CandidateAt14(); }
    else if i == 15 { CandidateRender15(); CandidateAt15(); }
    else if i == 16 { CandidateRender16(); CandidateAt16(); }
    else if i == 17 { CandidateRender17(); CandidateAt17(); }
    else if i == 18 { CandidateRender18(); CandidateAt18(); }
    else if i == 19 { CandidateRender19(); CandidateAt19(); }
    else if i == 20 { CandidateRender20(); CandidateAt20(); }
    else if i == 21 { CandidateRender21(); CandidateAt21(); }
    else if i == 22 { CandidateRender22(); CandidateAt22(); }
    else if i == 23 { CandidateRender23(); CandidateAt23(); }
    else if i == 24 { CandidateRender24(); CandidateAt24(); }
    else if i == 25 { CandidateRender25(); CandidateAt25(); }
    else if i == 26 { CandidateRender26(); CandidateAt26(); }
    else if i == 27 { CandidateRender27(); CandidateAt27(); }
    else if i == 28 { CandidateRender28(); CandidateAt28(); }
    else if i == 29 { CandidateRender29(); CandidateAt29(); }
  }

  lemma WellFormedDate(a: Token, sep: char, b: Token, c: Token)
    requires a.FieldToken? && b.FieldToken? && c.FieldToken?
    requires a.field != Unsupported && b.field != Unsupported && c.field != Unsupported
    requires !IsLatinLetter(sep)
    ensures WellFormed(DateTokens(a, sep, b, c))
  {
  }

  lemma WellFormedTime(date: seq<Token>)
    requires WellFormed(date)
    ensures WellFormed(WithMinutes(date)) && WellFormed(WithSeconds(date))
  {
    var m := WithMinutes(date);
    assert forall i :: |date| <= i < |m| ==> m[i] == [Sep(' '), HH, Sep(':'), MI][i - |date|];
    assert forall i :: 0 <= i < |date| ==> m[i] == date[i];
    var t := WithSeconds(date);
    assert forall i :: 0 <= i < |m| ==> t[i] == m[i];
  }

  // Every candidate token sequence is well formed; `CandidateWellFormed(i)`
  // dispatches to groups of a few indices each, to keep each proof small.

  lemma CandidateWellFormed0(i: nat)
    requires 0 <= i < 3 && i < |CandidateTokens|
    ensures WellFormed(CandidateTokens[i])
  {
    if i == 0 { WellFormedDate(Y4, '-', MM, DD); WellFormedTime(DateTokens(Y4, '-', MM, DD)); }
    else if i == 1 { WellFormedDate(Y4, '/', MM, DD); WellFormedTime(DateTokens(Y4, '/', MM, DD)); }
    else if i == 2 { WellFormedDate(DD, '/', MM, Y4); WellFormedTime(DateTokens(DD, '/', MM, Y4)); }
  }

  lemma CandidateWellFormed1(i: nat)
    requires 3 <= i < 6 && i < |CandidateTokens|
    ensures WellFormed(CandidateTokens[i])
  {
    if i == 3 { WellFormedDate(MM, '/', DD, Y4); WellFormedTime(DateTokens(MM, '/', DD, Y4)); }
    else if i == 4 { WellFormedDate(Y4, '-', MM, DD); WellFormedTime(DateTokens(Y4, '-', MM, DD)); }
    else if i == 5 { WellFormedDate(Y4, '/', MM, DD); WellFormedTime(DateTokens(Y4, '/', MM, DD)); }
  }

  lemma CandidateWellFormed6(i: nat)
    requires 6 <= i < 10 && i < |CandidateTokens|
    ensures WellFormed(CandidateTokens[i])
  {
    if i == 6 { WellFormedDate(DD, '/', MM, Y4); WellFormedTime(DateTokens(DD, '/', MM, Y4)); }
    else if i == 7 { WellFormedDate(MM, '/', DD, Y4); WellFormedTime(DateTokens(MM, '/', DD, Y4)); }
    else if i == 8 { WellFormedDate(Y4, '-', MM, DD); }
    else if i == 9 { WellFormedDate(Y4, '/', MM, DD); }
  }

  lemma CandidateWellFormed2(i: nat)
    requires 10 <= i < 15 && i < |CandidateTokens|
    ensures WellFormed(CandidateTokens[i])
  {
    if i == 10 { WellFormedDate(Y4, '.', MM, DD); }
    else if i == 11 { WellFormedDate(DD, '/', MM, Y4); }
    else if i == 12 { WellFormedDate(D1, '/', M1, Y4); }
    else if i == 13 { WellFormedDate(MM, '/', DD, Y4); }
    else if i == 14 { WellFormedDate(M1, '/', D1, Y4); }
  }

  lemma CandidateWellFormed3(i: nat)
    requires 15 <= i < 20 && i < |CandidateTokens|
    ensures WellFormed(CandidateTokens[i])
  {
    if i == 15 { WellFormedDate(DD, '-', MM, Y4); }
    else if i == 16 { WellFormedDate(D1, '-', M1, Y4); }
    else if i == 17 { WellFormedDate(MM, '-', DD, Y4); }
    else if i == 18 { WellFormedDate(M1, '-', D1, Y4); }
    else if i == 19 { WellFormedDate(DD, '.', MM, Y4); }
  }

  lemma CandidateWellFormed4(i: nat)
    requires 20 <= i < 25 && i < |CandidateTokens|
    ensures WellFormed(CandidateTokens[i])
  {
    if i == 20 { WellFormedDate(D1, '.', M1, Y4); }
    else if i == 21 { WellFormedDate(MM, '.', DD, Y4); }
    else if i == 22 { WellFormedDate(M1, '.', D1, Y4); }
    else if i == 23 { WellFormedDate(DD, '/', MM, Y2); WellFormedTime(DateTokens(DD, '/', MM, Y2)); }
    else if i == 24 { WellFormedDate(MM, '/', DD, Y2); WellFormedTime(DateTokens(MM, '/', DD, Y2)); }
  }

  lemma CandidateWellFormed5(i: nat)
    requires 25 <= i < 30 && i < |CandidateTokens|
    ensures WellFormed(CandidateTokens[i])
  {
    if i == 25 { WellFormedDate(DD, '/', MM, Y2); }
    else if i == 26 { WellFormedDate(D1, '/', M1, Y2); }
    else if i == 27 { WellFormedDate(MM, '/', DD, Y2); }
    else if i == 28 { WellFormedDate(M1, '/', D1, Y2); }
    else if i == 29 { }
  }

  lemma CandidateWellFormed(i: nat)
    requires i < |CandidateTokens|
    ensures WellFormed(CandidateTokens[i])
  {
    if i < 3 { CandidateWellFormed0(i); }
    else if i < 6 { CandidateWellFormed1(i); }
    else if i < 10 { CandidateWellFormed6(i); }
    else if i < 15 { CandidateWellFormed2(i); }
    else if i < 20 { CandidateWellFormed3(i); }
    else if i < 25 { CandidateWellFormed4(i); }
    else { CandidateWellFormed5(i); }
  }

  /** Each candidate format string is read as the token sequence at the same position. */
  lemma CandidateTokenize(i: nat)
    requires i < |FormatStrings|
    ensures |CandidateTokens| == |FormatStrings|
    ensures WellFormed(CandidateTokens[i])
    ensures Tokenize(FormatStrings[i]) == CandidateTokens[i]
  {
    CandidateRender(i);
    CandidateWellFormed(i);
    TokenizeRender(CandidateTokens[i]);
  }

  // ---- Facts about reading, used by the date-parsing proofs ----

  predicate IsDayOrMonth(f: Field) { f in {Day1, Day2, Month1, Month2} }

  predicate NoDayOrMonth(toks: seq<Token>) {
    forall i :: 0 <= i < |toks| && toks[i].FieldToken? ==> !IsDayOrMonth(toks[i].field)
  }

  /** Reading tokens that hold no day or month field leaves the day and month as they were. */
  lemma {:induction false} ScanKeepsDayMonth(s: string, toks: seq<Token>, acc: Fields, refYear: int)
    requires refYear > 50 && NoDayOrMonth(toks)
    requires ScanTokens(s, toks, acc, refYear).Some?
    ensures ScanTokens(s, toks, acc, refYear).value.0.day == acc.day
    ensures ScanTokens(s, toks, acc, refYear).value.0.month == acc.month
  {
    if toks != [] {
      assert NoDayOrMonth(toks[1..]) by {
        forall i | 0 <= i < |toks[1..]| && toks[1..][i].FieldToken? ensures !IsDayOrMonth(toks[1..][i].field) {
          assert toks[1..][i] == toks[i + 1];
        }
      }
      match toks[0]
      case Literal(c) => ScanKeepsDayMonth(s[1..], toks[1..], acc, refYear);
      case FieldToken(f) =>
        var n := FieldLength(s, f);
        var v := DigitsValue(s[..n]);
        assert !IsDayOrMonth(toks[0].field);
        ScanKeepsDayMonth(s[n..], toks[1..], SetField(acc, f, v, refYear), refYear);
    }
  }

  /** Reading `field sep rest`: the field's digits end where the separator sits in `s`. */
  lemma ScanFieldThenLiteral(s: string, f: Field, c: char, rest: seq<Token>, acc: Fields, refYear: int)
    requires refYear > 50
    requires ScanTokens(s, [FieldToken(f), Literal(c)] + rest, acc, refYear).Some?
    ensures var n := FieldLength(s, f);
            1 <= n < |s| && s[n] == c &&
            ScanTokens(s, [FieldToken(f), Literal(c)] + rest, acc, refYear)
              == ScanTokens(s[n + 1..], rest, SetField(acc, f, DigitsValue(s[..n]), refYear), refYear)
  {
    var toks := [FieldToken(f), Literal(c)] + rest;
    assert toks[1..] == [Literal(c)] + rest;
    assert toks[1..][1..] == rest;
    var n := FieldLength(s, f);
    var a := SetField(acc, f, DigitsValue(s[..n]), refYear);
    assert ScanTokens(s, toks, acc, refYear) == ScanTokens(s[n..], toks[1..], a, refYear);
    assert s[n..][1..] == s[n + 1..];
  }

  /** Reading `field sep field sep rest`: where the two fields and separators sit in `s`. */
  lemma ScanLeadingPair(s: string, f1: Field, c1: char, f2: Field, c2: char, rest: seq<Token>, acc: Fields, refYear: int)
    requires refYear > 50
    requires ScanTokens(s, [FieldToken(f1), Literal(c1), FieldToken(f2), Literal(c2)] + rest, acc, refYear).Some?
    ensures var n1 := FieldLength(s, f1);
            1 <= n1 < |s| && s[n1] == c1 &&
            var n2 := FieldLength(s[n1 + 1..], f2);
            1 <= n2 && n1 + 1 + n2 < |s| && s[n1 + 1 + n2] == c2 &&
            var a1 := SetField(acc, f1, DigitsValue(s[..n1]), refYear);
            var a2 := SetField(a1, f2, DigitsValue(s[n1 + 1..][..n2]), refYear);
            ScanTokens(s, [FieldToken(f1), Literal(c1), FieldToken(f2), Literal(c2)] + rest, acc, refYear)
              == ScanTokens(s[n1 + 1 + n2 + 1..], rest, a2, refYear)
  {
    var tail := [FieldToken(f2), Literal(c2)] + rest;
    assert [FieldToken(f1), Literal(c1), FieldToken(f2), Literal(c2)] + rest == [FieldToken(f1), Literal(c1)] + tail;
    ScanFieldThenLiteral(s, f1, c1, tail, acc, refYear);
    var n1 := FieldLength(s, f1);
    var a1 := SetField(acc, f1, DigitsValue(s[..n1]), refYear);
    var s2 := s[n1 + 1..];
    ScanFieldThenLiteral(s2, f2, c2, rest, a1, refYear);
    var n2 := FieldLength(s2, f2);
    assert s2[n2] == s[n1 + 1 + n2];
    assert s2[n2 + 1..] == s[n1 + 1 + n2 + 1..];
  }
}
