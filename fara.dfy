/**
 * The FARA scraper's date reader, `parse_date`: six `strptime` formats
 * tried in order on the stripped text, then a loose "looks like a date"
 * test on the raw text that hands it back unchanged.
 */
module Fara {
  import opened Common
  import opened Text
  import opened Calendar
  import opened Strptime

  const FaraFormats: seq<string> :=
    ["%m/%d/%Y", "%Y-%m-%d", "%B %d, %Y", "%b %d, %Y", "%m-%d-%Y", "%d-%b-%Y"]

  /** `%m/%d/%Y`: its directives and separator, and its tokens. */
  lemma SlashedShape()
    ensures FaraFormats[0] == Triple('m', 'd', 'Y', '/')
    ensures Compile(FaraFormats[0]) == [MonthNum, Lit('/'), DayNum, Lit('/'), Year4]
  {
    CompileTriple('m', 'd', 'Y', '/');
  }

  /** `%Y-%m-%d`: its directives and separator, and its tokens. */
  lemma IsoShape()
    ensures FaraFormats[1] == Triple('Y', 'm', 'd', '-')
    ensures Compile(FaraFormats[1]) == [Year4, Lit('-'), MonthNum, Lit('-'), DayNum]
  {
    CompileTriple('Y', 'm', 'd', '-');
  }

  /** `%B %d, %Y`: its directives and separator. */
  lemma WordedShape()
    ensures FaraFormats[2] == SpacedTriple('B', 'd', 'Y', ',')
  {
  }

  /** `%m-%d-%Y`: its directives and separator, and its tokens. */
  lemma DashedShape()
    ensures FaraFormats[4] == Triple('m', 'd', 'Y', '-')
    ensures Compile(FaraFormats[4]) == [MonthNum, Lit('-'), DayNum, Lit('-'), Year4]
  {
    CompileTriple('m', 'd', 'Y', '-');
  }

  /** `%d-%b-%Y`: its directives and separator, and its tokens. */
  lemma DayFirstShape()
    ensures FaraFormats[5] == Triple('d', 'b', 'Y', '-')
    ensures Compile(FaraFormats[5]) == [DayNum, Lit('-'), MonthAbbr, Lit('-'), Year4]
  {
    CompileTriple('d', 'b', 'Y', '-');
  }

  predicate IsDateSeparator(c: char) { c == '-' || c == '/' }

  /**
   * `\d{a}[-/]\d{b}[-/]\d\d` at the start of `s`: the shortest text the
   * fallback pattern can match with `a` and `b` digits in its first two
   * fields (the year field takes two to four digits, so two suffice).
   */
  predicate DateLikeAt(s: string, a: nat, b: nat) {
    && a + b + 4 <= |s|
    && AllDigits(s[..a]) && IsDateSeparator(s[a])
    && AllDigits(s[a + 1..a + 1 + b]) && IsDateSeparator(s[a + 1 + b])
    && AllDigits(s[a + b + 2..a + b + 4])
  }

  /**
   * `re.match(r'\d{1,2}[-/]\d{1,2}[-/]\d{2,4}', s)` succeeds: the pattern
   * is anchored at the start only, so anything may follow it.
   */
  predicate LooksLikeDate(s: string) {
    exists a: nat, b: nat | 1 <= a <= 2 && 1 <= b <= 2 :: DateLikeAt(s, a, b)
  }

  /**
   * `parse_date(date_str)`: `None` for the empty string; the first format
   * that reads the stripped text gives `YYYY-MM-DD`; otherwise the text
   * itself, unstripped, when it looks like a date, and `None` when not.
   */
  function ParseDate(s: string): (r: Option<string>)
    ensures s == [] ==> r.None?
    ensures r.Some? ==> r.value == s || IsIsoShaped(r.value)
  {
    if s == [] then None
    else
      match FirstParse(FaraFormats, Strip(s))
      case Some((_, d)) => Some(IsoFormat(d))
      case None => if LooksLikeDate(s) then Some(s) else None
  }

  /** The first format that reads the stripped text decides the result. */
  lemma ParseDateFirstMatch(s: string, i: nat, d: Date)
    requires s != [] && i < |FaraFormats| && Parse(FaraFormats[i], Strip(s)) == Some(d)
    requires forall j | 0 <= j < i :: Parse(FaraFormats[j], Strip(s)).None?
    ensures ParseDate(s) == Some(IsoFormat(d))
  {
    FirstParseAt(FaraFormats, Strip(s), i, d);
  }

  /** When no format reads it, the raw text is kept exactly when it looks like a date. */
  lemma ParseDateFallback(s: string)
    requires s != [] && forall j | 0 <= j < |FaraFormats| :: Parse(FaraFormats[j], Strip(s)).None?
    ensures ParseDate(s) == if LooksLikeDate(s) then Some(s) else None
  {
  }

  /** Each result is the ISO rendering of a real date or the input itself. */
  lemma ParseDateResult(s: string)
    ensures var r := ParseDate(s);
      r.Some? ==> r.value == s || exists d :: IsValidDate(d) && r.value == IsoFormat(d)
  {
  }

  /** `%m/%d/%Y` is tried first: `MM/DD/YYYY` is read month first. */
  lemma ParseDateMonthFirst(d: Date)
    requires IsValidDate(d)
    ensures ParseDate(Separated(d.month, d.day, d.year, '/')) == Some(IsoFormat(d))
  {
    var s := Separated(d.month, d.day, d.year, '/');
    assert IsDigit(s[0]) && IsDigit(s[9]);
    StripOfStripped(s);
    MdyRoundTrip(d, '/');
    SlashedShape();
    ParseDateFirstMatch(s, 0, d);
  }

  /** A rendered date reads back as itself. */
  lemma ParseDateIso(d: Date)
    requires IsValidDate(d)
    ensures ParseDate(IsoFormat(d)) == Some(IsoFormat(d))
  {
    var s := IsoFormat(d);
    IsoStripped(d);
    SlashedShape();
    NumberThenLiteralFails(Compile(FaraFormats[0]), s, Fields(1900, 1, 1));
    IsoRoundTrip(d);
    ParseDateFirstMatch(s, 1, d);
  }

  /** Reading a result again gives the same result. */
  lemma ParseDateIdempotent(s: string)
    requires ParseDate(s).Some?
    ensures ParseDate(ParseDate(s).value) == ParseDate(s)
  {
    match FirstParse(FaraFormats, Strip(s))
    case Some((_, d)) => ParseDateIso(d);
    case None =>
  }

  /** The fallback pattern needs a digit first. */
  lemma LooksLikeDateStart(s: string)
    requires LooksLikeDate(s)
    ensures |s| >= 6 && IsDigit(s[0])
  {
  }

  lemma NamesAbsent(s: string)
    requires s != [] && LowerChar(s[0]) !in "jfmasond"
    ensures NameOptions(s, 0, false, 1) == [] && NameOptions(s, 0, true, 1) == []
  {
    MonthInitials(LowerChar(s[0]), false);
    MonthInitials(LowerChar(s[0]), true);
    NamesMissAt(s, 0, false, 1);
    NamesMissAt(s, 0, true, 1);
  }

  /** `%B` and `%b` cannot begin at a character that is not a month initial. */
  lemma NoMonthAt(s: string)
    requires s != [] && LowerChar(s[0]) !in "jfmasond"
    ensures Options(MonthName, s, 0) == [] && Options(MonthAbbr, s, 0) == []
  {
    NamesAbsent(s);
  }

  /** No number starts at a character that is neither a digit nor a space. */
  lemma NoNumberStarts(t: string)
    requires t != [] && !IsSpace(t[0]) && !IsDigit(t[0])
    ensures Options(MonthNum, t, 0) == [] && Options(DayNum, t, 0) == [] && Options(Year4, t, 0) == []
  {
    assert Ch(t, 0) == t[0];
    assert |t| < 4 || !AllDigits(t[..4]) by { assert |t| < 4 || t[..4][0] == t[0]; }
  }

  /**
   * At a character that is neither a digit, a space nor the initial of an
   * English month, none of `%m %Y %B %b %d` can begin.
   */
  lemma NoDirectiveStarts(t: string, c: char)
    requires t != [] && !IsSpace(t[0]) && !IsDigit(t[0]) && LowerChar(t[0]) !in "jfmasond"
    requires c == 'm' || c == 'Y' || c == 'B' || c == 'b' || c == 'd'
    ensures Options(DirectiveToken(c), t, 0) == []
  {
    if c == 'B' || c == 'b' {
      NoMonthAt(t);
    } else {
      NoNumberStarts(t);
    }
  }

  /** No format of the list can read such text. */
  lemma NoFormatStarts(t: string)
    requires t != [] && !IsSpace(t[0]) && !IsDigit(t[0]) && LowerChar(t[0]) !in "jfmasond"
    ensures forall j | 0 <= j < |FaraFormats| :: Parse(FaraFormats[j], t).None?
  {
    forall j | 0 <= j < |FaraFormats|
      ensures Parse(FaraFormats[j], t).None?
    {
      var fmt := FaraFormats[j];
      assert fmt[0] == '%' && (fmt[1] == 'm' || fmt[1] == 'Y' || fmt[1] == 'B' || fmt[1] == 'b' || fmt[1] == 'd');
      NoDirectiveStarts(t, fmt[1]);
      DirectiveFirstFails(fmt, t);
    }
  }

  /**
   * Text that starts with neither a digit, a space nor the initial of an
   * English month gives `None`: no format can begin reading it and the
   * fallback needs a digit first.
   */
  lemma ParseDateRejects(s: string)
    requires s != [] && !IsSpace(s[0]) && !IsDigit(s[0]) && LowerChar(s[0]) !in "jfmasond"
    ensures ParseDate(s) == None
  {
    StripKeepsFirst(s);
    NoFormatStarts(Strip(s));
    if LooksLikeDate(s) {
      LooksLikeDateStart(s);
    }
    ParseDateFallback(s);
  }

  lemma Jan15Separated()
    ensures Separated(1, 15, 2023, '/') == "01/15/2023"
  {
    PadFour(2023);
    PadTwo(1);
    PadTwo(15);
  }

  lemma Jan15Iso()
    ensures IsoFormat(Date(2023, 1, 15)) == "2023-01-15"
  {
    PadFour(2023);
    PadTwo(1);
    PadTwo(15);
  }

  /** The month-first and ISO spellings of 15 January 2023 both read as the ISO date. */
  lemma Jan15Examples()
    ensures ParseDate("01/15/2023") == Some("2023-01-15")
    ensures ParseDate("2023-01-15") == Some("2023-01-15")
  {
    Jan15Separated();
    Jan15Iso();
    ParseDateMonthFirst(Date(2023, 1, 15));
    ParseDateIso(Date(2023, 1, 15));
  }

  // ---------------------------------------------------------------------
  // Month names: `%B %d, %Y` and `%d-%b-%Y`
  // ---------------------------------------------------------------------

  /** `name` is month `m`'s name (`abbr`: its three-letter abbreviation) in any mix of cases. */
  predicate Spells(name: string, m: nat, abbr: bool)
    requires 1 <= m <= 12
  {
    |name| == |MonthSpelling(m, abbr)| && forall i | 0 <= i < |name| :: LowerChar(name[i]) == MonthSpelling(m, abbr)[i]
  }

  /** `January 15, 2023` (with `sep` the comma): a month's name, the two-digit day, `sep`, a blank and the year. */
  function Worded(name: string, d: Date, sep: char): string
    requires IsValidDate(d)
  {
    name + [' '] + Pad(d.day, 2) + [sep, ' '] + Pad(d.year, 4)
  }

  /** `15-Jan-2023` (with `sep` the dash): the two-digit day, the month's abbreviation and the year. */
  function Abbreviated(abbr: string, d: Date, sep: char): string
    requires IsValidDate(d)
  {
    Pad(d.day, 2) + [sep] + abbr + [sep] + Pad(d.year, 4)
  }

  /** A format of three directives, the first two and the last two separated by blanks, with a literal after the second. */
  function SpacedTriple(x: char, y: char, z: char, sep: char): string {
    ['%', x, ' ', '%', y, sep, ' ', '%', z]
  }

  lemma CompileSpacedTriple(x: char, y: char, z: char, sep: char)
    requires sep != '%' && !IsSpace(sep)
    ensures Compile(SpacedTriple(x, y, z, sep))
      == [DirectiveToken(x), Blank, DirectiveToken(y), Lit(sep), Blank, DirectiveToken(z)]
  {
    var t := SpacedTriple(x, y, z, sep);
    CompileSpacedPair(y, z, sep);
    CompileBlank(t[2..]);
    assert t[2..][1..] == t[3..] == ['%', y, sep, ' ', '%', z];
    CompileDirective(t);
  }

  /** `%y<sep> %z` */
  lemma CompileSpacedPair(y: char, z: char, sep: char)
    requires sep != '%' && !IsSpace(sep)
    ensures Compile(['%', y, sep, ' ', '%', z]) == [DirectiveToken(y), Lit(sep), Blank, DirectiveToken(z)]
  {
    var t := ['%', y, sep, ' ', '%', z];
    CompileSpacedLast(z, sep);
    assert t[2..] == [sep, ' ', '%', z];
    CompileDirective(t);
  }

  /** `<sep> %z` */
  lemma CompileSpacedLast(z: char, sep: char)
    requires sep != '%' && !IsSpace(sep)
    ensures Compile([sep, ' ', '%', z]) == [Lit(sep), Blank, DirectiveToken(z)]
  {
    var t := [sep, ' ', '%', z];
    assert t[1..] == [' ', '%', z] && t[2..] == ['%', z] && t[4..] == [];
    CompileDirective(t[2..]);
    assert t[2..][2..] == [];
    CompileBlank(t[1..]);
    assert t[1..][1..] == t[2..];
    CompileLiteral(t);
  }

  /** A month's name begins with a letter, never a digit or a space. */
  lemma SpelledInitial(name: string, m: nat, abbr: bool)
    requires 1 <= m <= 12 && Spells(name, m, abbr)
    ensures name != [] && !IsDigit(name[0]) && !IsSpace(name[0])
  {
    assert LowerChar(name[0]) == MonthWord(m)[0];
    assert 'a' <= MonthWord(m)[0] <= 'z';
  }

  /** The literal, the blank and the year at the end of a worded date. */
  lemma WordedYear(name: string, d: Date, sep: char, f: Fields)
    requires IsValidDate(d)
    ensures var s := Worded(name, d, sep);
      Run([Lit(sep), Blank, Year4], s, |name| + 3, f) == Some((f.(year := d.year), |s|))
  {
    var s := Worded(name, d, sep);
    var n := |name|;
    var toks := [Lit(sep), Blank, Year4];
    var r := (f.(year := d.year), |s|);
    assert |s| == n + 9 && s[n + 3] == sep && s[n + 4] == ' ' && s[n + 5..n + 9] == Pad(d.year, 4);
    assert Run(toks[3..], s, n + 9, r.0) == Some(r);
    YearOption(s, n + 5, d.year);
    RunStep(toks[2..], s, n + 5, f);
    TryFirst(toks[2..], Options(Year4, s, n + 5), s, n + 5, f, r);
    SingleBlank(s, n + 4);
    RunStep(toks[1..], s, n + 4, f);
    TryFirst(toks[1..], Options(Blank, s, n + 4), s, n + 4, f, r);
    LitOption(s, n + 3, sep);
    RunStep(toks, s, n + 3, f);
    TryFirst(toks, Options(Lit(sep), s, n + 3), s, n + 3, f, r);
  }

  /** The blank and the day after the month's name. */
  lemma WordedDay(name: string, d: Date, sep: char, f: Fields)
    requires IsValidDate(d)
    ensures var s := Worded(name, d, sep);
      Run([Blank, DayNum, Lit(sep), Blank, Year4], s, |name|, f) == Some((f.(day := d.day, year := d.year), |s|))
  {
    var s := Worded(name, d, sep);
    var n := |name|;
    var toks := [Blank, DayNum, Lit(sep), Blank, Year4];
    var r := (f.(day := d.day, year := d.year), |s|);
    assert s[n] == ' ' && s[n + 1..n + 3] == Pad(d.day, 2) && IsDigit(s[n + 1]);
    WordedYear(name, d, sep, f.(day := d.day));
    assert toks[2..] == [Lit(sep), Blank, Year4];
    DayFirstOption(s, n + 1, d.day);
    RunStep(toks[1..], s, n + 1, f);
    TryFirst(toks[1..], Options(DayNum, s, n + 1), s, n + 1, f, r);
    SingleBlank(s, n);
    RunStep(toks, s, n, f);
    TryFirst(toks, Options(Blank, s, n), s, n, f, r);
  }

  /** `%B` matches exactly the month's name at the start of a worded date. */
  lemma WordedName(name: string, d: Date, sep: char)
    requires IsValidDate(d) && Spells(name, d.month, false)
    ensures Options(MonthName, Worded(name, d, sep), 0) == [Piece(|name|, MonthSlot, d.month)]
  {
    var s := Worded(name, d, sep);
    assert LowerMatchAt(s, 0, MonthSpelling(d.month, false)) by {
      forall i | 0 <= i < |name| ensures LowerChar(s[i]) == MonthSpelling(d.month, false)[i] {
        assert s[i] == name[i];
      }
    }
    NameOption(s, 0, false, d.month);
  }

  /** The tokens of `%B %d, %Y` consume a worded date and set its fields. */
  lemma WordedRun(name: string, d: Date, sep: char)
    requires IsValidDate(d) && Spells(name, d.month, false)
    ensures var s := Worded(name, d, sep);
      Run([MonthName, Blank, DayNum, Lit(sep), Blank, Year4], s, 0, Fields(1900, 1, 1))
        == Some((Fields(d.year, d.month, d.day), |s|))
  {
    var s := Worded(name, d, sep);
    var toks := [MonthName, Blank, DayNum, Lit(sep), Blank, Year4];
    var f0 := Fields(1900, 1, 1);
    var f1 := f0.(month := d.month);
    var r := (Fields(d.year, d.month, d.day), |s|);
    WordedName(name, d, sep);
    WordedDay(name, d, sep, f1);
    assert toks[1..] == [Blank, DayNum, Lit(sep), Blank, Year4];
    var p := Piece(|name|, MonthSlot, d.month);
    assert Assign(f0, p) == f1 && 0 + p.width == |name|;
    assert Run(toks[1..], s, 0 + p.width, Assign(f0, p)) == Some(r);
    RunStep(toks, s, 0, f0);
    TryFirst(toks, [p], s, 0, f0, r);
  }

  /** `%B %d<sep> %Y` reads a worded date. */
  lemma WordedRoundTrip(name: string, d: Date, sep: char)
    requires IsValidDate(d) && Spells(name, d.month, false)
    requires sep != '%' && !IsSpace(sep)
    ensures Parse(SpacedTriple('B', 'd', 'Y', sep), Worded(name, d, sep)) == Some(d)
  {
    WordedRun(name, d, sep);
    CompileSpacedTriple('B', 'd', 'Y', sep);
    ParseOfRun(SpacedTriple('B', 'd', 'Y', sep), Worded(name, d, sep), d);
  }

  /** The numeric formats that open the list cannot begin at a letter. */
  lemma NumericMissLetter(s: string)
    requires s != [] && !IsDigit(s[0]) && !IsSpace(s[0])
    ensures forall j | 0 <= j < 2 :: Parse(FaraFormats[j], s).None?
  {
    NoNumberStarts(s);
    forall j | 0 <= j < 2
      ensures Parse(FaraFormats[j], s).None?
    {
      var fmt := FaraFormats[j];
      assert fmt[0] == '%' && fmt[1] in "mY";
      DirectiveFirstFails(fmt, s);
    }
  }

  /**
   * A date written out with the month's name, as in `January 15, 2023`,
   * reads as its ISO form: the two numeric formats before `%B %d, %Y`
   * cannot begin at a letter.
   */
  lemma ParseDateWorded(name: string, d: Date)
    requires IsValidDate(d) && Spells(name, d.month, false)
    ensures ParseDate(Worded(name, d, ',')) == Some(IsoFormat(d))
  {
    var s := Worded(name, d, ',');
    SpelledInitial(name, d.month, false);
    assert s[0] == name[0] && IsDigit(s[|s| - 1]);
    StripOfStripped(s);
    NumericMissLetter(s);
    WordedRoundTrip(name, d, ',');
    WordedShape();
    ParseDateFirstMatch(s, 2, d);
  }

  /** The abbreviation, the literal and the year of `%d-%b-%Y`. */
  lemma AbbreviatedMonth(abbr: string, d: Date, sep: char, f: Fields)
    requires IsValidDate(d) && Spells(abbr, d.month, true)
    ensures Run([Lit(sep), MonthAbbr, Lit(sep), Year4], Abbreviated(abbr, d, sep), 2, f)
      == Some((f.(month := d.month, year := d.year), 11))
  {
    var s := Abbreviated(abbr, d, sep);
    var toks := [Lit(sep), MonthAbbr, Lit(sep), Year4];
    var r := (f.(month := d.month, year := d.year), 11);
    var f1 := f.(month := d.month);
    assert |s| == 11 && s[2] == sep && s[6] == sep && s[7..11] == Pad(d.year, 4);
    assert Run(toks[4..], s, 11, r.0) == Some(r);
    YearOption(s, 7, d.year);
    RunStep(toks[3..], s, 7, f1);
    TryFirst(toks[3..], Options(Year4, s, 7), s, 7, f1, r);
    LitOption(s, 6, sep);
    RunStep(toks[2..], s, 6, f1);
    TryFirst(toks[2..], Options(Lit(sep), s, 6), s, 6, f1, r);
    assert LowerMatchAt(s, 3, MonthSpelling(d.month, true)) by {
      forall i | 0 <= i < 3 ensures LowerChar(s[3 + i]) == MonthSpelling(d.month, true)[i] {
        assert s[3 + i] == abbr[i];
      }
    }
    NameOption(s, 3, true, d.month);
    RunStep(toks[1..], s, 3, f);
    TryFirst(toks[1..], Options(MonthAbbr, s, 3), s, 3, f, r);
    LitOption(s, 2, sep);
    RunStep(toks, s, 2, f);
    TryFirst(toks, Options(Lit(sep), s, 2), s, 2, f, r);
  }

  /** The tokens of `%d-%b-%Y` consume an abbreviated date and set its fields. */
  lemma AbbreviatedRun(abbr: string, d: Date, sep: char)
    requires IsValidDate(d) && Spells(abbr, d.month, true)
    ensures Run([DayNum, Lit(sep), MonthAbbr, Lit(sep), Year4], Abbreviated(abbr, d, sep), 0, Fields(1900, 1, 1))
      == Some((Fields(d.year, d.month, d.day), 11))
  {
    var s := Abbreviated(abbr, d, sep);
    var toks := [DayNum, Lit(sep), MonthAbbr, Lit(sep), Year4];
    var f0 := Fields(1900, 1, 1);
    var r := (Fields(d.year, d.month, d.day), 11);
    assert s[0..2] == Pad(d.day, 2);
    AbbreviatedMonth(abbr, d, sep, f0.(day := d.day));
    assert toks[1..] == [Lit(sep), MonthAbbr, Lit(sep), Year4];
    DayFirstOption(s, 0, d.day);
    RunStep(toks, s, 0, f0);
    TryFirst(toks, Options(DayNum, s, 0), s, 0, f0, r);
  }

  /** `%d<sep>%b<sep>%Y` reads an abbreviated date. */
  lemma AbbreviatedRoundTrip(abbr: string, d: Date, sep: char)
    requires IsValidDate(d) && Spells(abbr, d.month, true)
    requires sep != '%' && !IsSpace(sep)
    ensures Parse(Triple('d', 'b', 'Y', sep), Abbreviated(abbr, d, sep)) == Some(d)
  {
    AbbreviatedRun(abbr, d, sep);
    CompileTriple('d', 'b', 'Y', sep);
    ParseOfRun(Triple('d', 'b', 'Y', sep), Abbreviated(abbr, d, sep), d);
  }

  /**
   * `%m<sep>%d<sep>%Y` cannot read an abbreviated date: after a one-digit
   * month the separator is missing, after a two-digit one the day meets a letter.
   */
  lemma MonthFirstMisses(abbr: string, d: Date, sep: char)
    requires IsValidDate(d) && Spells(abbr, d.month, true)
    requires sep != '%' && !IsSpace(sep) && !IsDigit(sep)
    ensures Parse(Triple('m', 'd', 'Y', sep), Abbreviated(abbr, d, sep)).None?
  {
    var s := Abbreviated(abbr, d, sep);
    var toks := [MonthNum, Lit(sep), DayNum, Lit(sep), Year4];
    var f0 := Fields(1900, 1, 1);
    var opts := Options(MonthNum, s, 0);
    NumberWidths(MonthNum, s, 0);
    forall k | 0 <= k < |opts| ensures Attempt(toks, opts[k], s, 0, f0).None? {
      MonthWidthMisses(abbr, d, sep, opts[k].width, Assign(f0, opts[k]));
    }
    RunStep(toks, s, 0, f0);
    TryNone(toks, opts, s, 0, f0);
    CompileTriple('m', 'd', 'Y', sep);
  }

  /** Whether `%m` took one digit or two, the rest of `%m<sep>%d<sep>%Y` fails on an abbreviated date. */
  lemma MonthWidthMisses(abbr: string, d: Date, sep: char, w: nat, f1: Fields)
    requires IsValidDate(d) && Spells(abbr, d.month, true)
    requires sep != '%' && !IsSpace(sep) && !IsDigit(sep)
    requires 1 <= w <= 2
    ensures Run([Lit(sep), DayNum, Lit(sep), Year4], Abbreviated(abbr, d, sep), w, f1).None?
  {
    var s := Abbreviated(abbr, d, sep);
    var toks := [Lit(sep), DayNum, Lit(sep), Year4];
    SpelledInitial(abbr, d.month, true);
    assert s[0..2] == Pad(d.day, 2) && s[2] == sep && s[3] == abbr[0];
    PadTwo(d.day);
    if w == 1 {
      assert Ch(s, 1) == s[1];
      LiteralMiss(toks, s, 1, f1);
    } else {
      var rest := [DayNum, Lit(sep), Year4];
      assert toks[1..] == rest;
      assert Options(DayNum, s, 3) == [];
      RunStep(rest, s, 3, f1);
      LitOption(s, 2, sep);
      RunStep(toks, s, 2, f1);
      assert Attempt(toks, Piece(1, NoSlot, 0), s, 2, f1).None?;
      TryNone(toks, [Piece(1, NoSlot, 0)], s, 2, f1);
    }
  }

  /** The numeric formats that open the list cannot read an abbreviated date. */
  lemma NumericFirstMisses(abbr: string, d: Date)
    requires IsValidDate(d) && Spells(abbr, d.month, true)
    ensures Parse(FaraFormats[0], Abbreviated(abbr, d, '-')).None?
    ensures Parse(FaraFormats[1], Abbreviated(abbr, d, '-')).None?
  {
    var s := Abbreviated(abbr, d, '-');
    PadTwo(d.day);
    assert IsDigit(s[0]) && IsDigit(s[1]) && s[2] == '-';
    SlashedShape();
    IsoShape();
    NumberThenLiteralMisses(Compile(FaraFormats[0]), s, Fields(1900, 1, 1));
    NoYearAt(s, 2);
    DirectiveFirstFails(FaraFormats[1], s);
  }

  /** A format that opens with `%B` or `%b` cannot read a text that opens with a digit. */
  lemma NameFirstFails(fmt: string, s: string)
    requires |fmt| >= 2 && fmt[0] == '%' && (fmt[1] == 'B' || fmt[1] == 'b')
    requires s != [] && IsDigit(s[0])
    ensures Parse(fmt, s).None?
  {
    NoMonthAt(s);
    DirectiveFirstFails(fmt, s);
  }

  /** The month-name formats cannot read a text that opens with a digit. */
  lemma NamedFirstMisses(s: string)
    requires s != [] && IsDigit(s[0])
    ensures forall j | 2 <= j < 4 :: Parse(FaraFormats[j], s).None?
  {
    forall j | 2 <= j < 4
      ensures Parse(FaraFormats[j], s).None?
    {
      NameFirstFails(FaraFormats[j], s);
    }
  }

  /**
   * A date written with the month's abbreviation, as in `15-Jan-2023`,
   * reads as its ISO form: none of the five formats before `%d-%b-%Y`
   * can read it.
   */
  lemma ParseDateAbbreviated(abbr: string, d: Date)
    requires IsValidDate(d) && Spells(abbr, d.month, true)
    ensures ParseDate(Abbreviated(abbr, d, '-')) == Some(IsoFormat(d))
  {
    var s := Abbreviated(abbr, d, '-');
    AbbreviatedMissesEarlier(abbr, d);
    AbbreviatedRoundTrip(abbr, d, '-');
    DayFirstShape();
    ParseDateFirstMatch(s, 5, d);
  }

  /** An abbreviated date has no surrounding whitespace, and the five formats before `%d-%b-%Y` miss it. */
  lemma AbbreviatedMissesEarlier(abbr: string, d: Date)
    requires IsValidDate(d) && Spells(abbr, d.month, true)
    ensures var s := Abbreviated(abbr, d, '-');
      s != [] && Strip(s) == s && forall j | 0 <= j < 5 :: Parse(FaraFormats[j], s).None?
  {
    var s := Abbreviated(abbr, d, '-');
    PadTwo(d.day);
    assert IsDigit(s[0]) && IsDigit(s[|s| - 1]);
    StripOfStripped(s);
    NumericFirstMisses(abbr, d);
    NamedFirstMisses(s);
    MonthFirstMisses(abbr, d, '-');
    DashedShape();
  }

  lemma January15Spelled()
    ensures Worded("January", Date(2023, 1, 15), ',') == "January 15, 2023"
    ensures Abbreviated("Jan", Date(2023, 1, 15), '-') == "15-Jan-2023"
    ensures Spells("January", 1, false) && Spells("Jan", 1, true)
  {
    PadFour(2023);
    PadTwo(15);
    assert MonthSpelling(1, false) == "january" && MonthSpelling(1, true) == "jan";
  }

  /** `January 15, 2023` and `15-Jan-2023` read as the ISO date. */
  lemma Jan15Named()
    ensures ParseDate("January 15, 2023") == Some("2023-01-15")
    ensures ParseDate("15-Jan-2023") == Some("2023-01-15")
  {
    January15Spelled();
    ParseDateWorded("January", Date(2023, 1, 15));
    ParseDateAbbreviated("Jan", Date(2023, 1, 15));
    Jan15Iso();
  }

  /** A word that is not a date gives `None`. */
  lemma InvalidRejected()
    ensures ParseDate("invalid") == None
  {
    ParseDateRejects("invalid");
  }

  /** `%m` reads one digit of a two-digit number above 12. */
  lemma MonthOverTwelveOptions(s: string)
    requires |s| >= 2 && '1' <= s[0] <= '9' && IsDigit(s[1]) && !(s[0] == '1' && s[1] <= '2')
    ensures Options(MonthNum, s, 0) == [Piece(1, MonthSlot, DigitOf(s[0]))]
  {
  }

  /**
   * The characters of a slashed date whose first field `a` is above 12:
   * two digits that `%m` cannot read as one month, then a slash.
   */
  lemma MonthOverTwelveText(a: nat, b: nat, y: nat)
    requires 13 <= a <= 99
    ensures var s := Separated(a, b, y, '/');
      && '1' <= s[0] <= '9' && IsDigit(s[1]) && !(s[0] == '1' && s[1] <= '2') && s[2] == '/'
  {
    var s := Separated(a, b, y, '/');
    PadTwo(a);
    assert s[0] == DigitChar(a / 10) && s[1] == DigitChar(a % 10);
  }

  /** The month-first formats stop after one digit of such a field. */
  lemma MonthFirstFormatsFail(s: string, j: nat)
    requires |s| >= 3 && '1' <= s[0] <= '9' && IsDigit(s[1]) && !(s[0] == '1' && s[1] <= '2')
    requires j == 0 || j == 4
    ensures Parse(FaraFormats[j], s).None?
  {
    SlashedShape();
    DashedShape();
    MonthOverTwelveOptions(s);
    LiteralMissFails(Compile(FaraFormats[j]), s, Fields(1900, 1, 1));
  }

  /** `%d-%b-%Y` finds no dash after one or two digits followed by a slash. */
  lemma DayFirstFormatFails(s: string)
    requires |s| >= 3 && IsDigit(s[1]) && s[2] == '/'
    ensures Parse(FaraFormats[5], s).None?
  {
    DayFirstShape();
    assert LowerChar(Ch(s, 1)) == s[1] && LowerChar(Ch(s, 2)) == '/';
    NumberThenLiteralMisses(Compile(FaraFormats[5]), s, Fields(1900, 1, 1));
  }

  /** The formats that open with `%Y`, `%B` or `%b` cannot read such text. */
  lemma WordFormatsFail(s: string, j: nat)
    requires |s| >= 3 && IsDigit(s[0]) && s[2] == '/'
    requires 1 <= j <= 3
    ensures Parse(FaraFormats[j], s).None?
  {
    var fmt := FaraFormats[j];
    assert fmt[0] == '%';
    assert DirectiveToken(fmt[1]) in {Year4, MonthName, MonthAbbr};
    NoYearAt(s, 2);
    assert LowerChar(s[0]) == s[0];
    NoMonthAt(s);
    DirectiveFirstFails(fmt, s);
  }

  /**
   * No format reads text that opens with a two-digit number above 12 and
   * a slash.
   */
  lemma MonthOverTwelveUnread(s: string)
    requires |s| >= 3 && '1' <= s[0] <= '9' && IsDigit(s[1]) && !(s[0] == '1' && s[1] <= '2')
    requires s[2] == '/'
    ensures forall j | 0 <= j < |FaraFormats| :: Parse(FaraFormats[j], s).None?
  {
    forall j | 0 <= j < |FaraFormats|
      ensures Parse(FaraFormats[j], s).None?
    {
      if j == 0 || j == 4 {
        MonthFirstFormatsFail(s, j);
      } else if j == 5 {
        DayFirstFormatFails(s);
      } else {
        WordFormatsFail(s, j);
      }
    }
  }

  /**
   * The fallback keeps text that no format reads when its start looks like
   * a date: a slashed date with a month field above 12, such as
   * "13/45/2023", comes back unchanged although it names no real day.
   */
  lemma MonthOverTwelveKept(a: nat, b: nat, y: nat)
    requires 13 <= a <= 99 && b <= 99 && y <= 9999
    ensures ParseDate(Separated(a, b, y, '/')) == Some(Separated(a, b, y, '/'))
  {
    var s := Separated(a, b, y, '/');
    assert IsDigit(s[0]) && IsDigit(s[9]);
    StripOfStripped(s);
    MonthOverTwelveText(a, b, y);
    MonthOverTwelveUnread(s);
    assert DateLikeAt(s, 2, 2);
    ParseDateFallback(s);
  }
}
