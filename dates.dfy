/**
 * The proleptic Gregorian calendar of Python's `datetime.date` and the
 * `strftime('%Y-%m-%d')` rendering every date parser of the project emits.
 */
module Calendar {
  import opened Text

  datatype Date = Date(year: int, month: int, day: int)

  predicate IsLeapYear(y: int) {
    y % 4 == 0 && (y % 100 != 0 || y % 400 == 0)
  }

  function DaysInMonth(y: int, m: int): (n: int)
    requires 1 <= m <= 12
    ensures 28 <= n <= 31
  {
    if m == 2 then (if IsLeapYear(y) then 29 else 28)
    else if m == 4 || m == 6 || m == 9 || m == 11 then 30
    else 31
  }

  /** The dates `datetime.date` accepts: years 1 to 9999, real months and days. */
  predicate IsValidDate(d: Date) {
    1 <= d.year <= 9999 && 1 <= d.month <= 12 && 1 <= d.day <= DaysInMonth(d.year, d.month)
  }

  /** `YYYY-MM-DD`: ten characters, digits with dashes at positions 4 and 7. */
  predicate IsIsoShaped(s: string) {
    |s| == 10 && s[4] == '-' && s[7] == '-'
    && AllDigits(s[..4]) && AllDigits(s[5..7]) && AllDigits(s[8..])
  }

  /** `date.strftime('%Y-%m-%d')`. */
  function IsoFormat(d: Date): (s: string)
    requires IsValidDate(d)
    ensures IsIsoShaped(s)
  {
    var s := Pad(d.year, 4) + "-" + Pad(d.month, 2) + "-" + Pad(d.day, 2);
    assert s[..4] == Pad(d.year, 4) && s[5..7] == Pad(d.month, 2) && s[8..] == Pad(d.day, 2);
    s
  }

  /** A rendered date has no surrounding whitespace. */
  lemma IsoStripped(d: Date)
    requires IsValidDate(d)
    ensures Strip(IsoFormat(d)) == IsoFormat(d)
  {
    var s := IsoFormat(d);
    assert IsDigit(s[0]) && IsDigit(s[9]);
    StripOfStripped(s);
  }

  /** Calendar order. */
  predicate Before(a: Date, b: Date) {
    a.year < b.year
    || (a.year == b.year && (a.month < b.month || (a.month == b.month && a.day < b.day)))
  }

  /** Comparing two strings of the same length that share or differ in a prefix. */
  lemma {:induction false} LexLessConcat(x: string, p: string, y: string, q: string)
    requires |x| == |y|
    ensures x == y ==> (LexLess(x + p, y + q) <==> LexLess(p, q))
    ensures x != y ==> (LexLess(x + p, y + q) <==> LexLess(x, y))
    decreases |x|
  {
    if |x| > 0 {
      assert (x + p)[0] == x[0] && (y + q)[0] == y[0];
      assert (x + p)[1..] == x[1..] + p && (y + q)[1..] == y[1..] + q;
      LexLessConcat(x[1..], p, y[1..], q);
      if x[0] == y[0] && x[1..] == y[1..] {
        assert x == [x[0]] + x[1..] && y == [y[0]] + y[1..];
      }
    } else {
      assert x + p == p && y + q == q;
    }
  }

  /** Fixed-width zero-padded numbers sort as strings the way they sort as numbers. */
  lemma {:induction false} PadOrder(a: nat, b: nat, w: nat)
    requires a < Pow10(w) && b < Pow10(w)
    ensures LexLess(Pad(a, w), Pad(b, w)) <==> a < b
  {
    if w == 0 {
    } else {
      var pa, pb := Pad(a / 10, w - 1), Pad(b / 10, w - 1);
      var da, db := [DigitChar(a % 10)], [DigitChar(b % 10)];
      LexLessConcat(pa, da, pb, db);
      PadOrder(a / 10, b / 10, w - 1);
      if pa == pb {
        PadValue(a / 10, w - 1);
        PadValue(b / 10, w - 1);
        assert a / 10 == b / 10;
        assert LexLess(da, db) <==> DigitChar(a % 10) < DigitChar(b % 10);
      } else {
        assert a / 10 != b / 10;
      }
    }
  }

  /** Three dash-separated fields of fixed widths compare field by field. */
  lemma DashedOrder(ya: string, ma: string, da: string, yb: string, mb: string, db: string)
    requires |ya| == |yb| && |ma| == |mb|
    ensures LexLess(ya + "-" + ma + "-" + da, yb + "-" + mb + "-" + db)
      <==> LexLess(ya, yb) || (ya == yb && (LexLess(ma, mb) || (ma == mb && LexLess(da, db))))
  {
    var ta, tb := ma + "-" + da, mb + "-" + db;
    assert ya + "-" + ma + "-" + da == ya + ("-" + ta);
    assert yb + "-" + mb + "-" + db == yb + ("-" + tb);
    LexLessConcat(ya, "-" + ta, yb, "-" + tb);
    LexLessConcat("-", ta, "-", tb);
    assert ta == ma + ("-" + da) && tb == mb + ("-" + db);
    LexLessConcat(ma, "-" + da, mb, "-" + db);
    LexLessConcat("-", da, "-", db);
    LexLessIrreflexive(ya);
    LexLessIrreflexive(ma);
  }

  /** Zero-padded numbers of one width are equal exactly when the numbers are. */
  lemma PadInjective(a: nat, b: nat, w: nat)
    requires a < Pow10(w) && b < Pow10(w)
    ensures Pad(a, w) == Pad(b, w) <==> a == b
  {
    PadValue(a, w);
    PadValue(b, w);
  }

  /** ISO renderings sort, as strings, in calendar order. */
  lemma IsoOrder(a: Date, b: Date)
    requires IsValidDate(a) && IsValidDate(b)
    ensures LexLess(IsoFormat(a), IsoFormat(b)) <==> Before(a, b)
  {
    DashedOrder(Pad(a.year, 4), Pad(a.month, 2), Pad(a.day, 2), Pad(b.year, 4), Pad(b.month, 2), Pad(b.day, 2));
    PadOrder(a.year, b.year, 4);
    PadOrder(a.month, b.month, 2);
    PadOrder(a.day, b.day, 2);
    PadInjective(a.year, b.year, 4);
    PadInjective(a.month, b.month, 2);
  }
}

/**
 * `datetime.strptime` for the directives the project's format lists use:
 * `%Y`, `%y`, `%m`, `%d`, `%B`, `%b`, literal characters and whitespace.
 *
 * CPython turns a format into a regular expression (whitespace runs become
 * `\s+`, each directive a group with fixed alternatives), matches it at the
 * start of the input with backtracking, rejects the input if characters are
 * left over, then builds a `date`, which rejects impossible days.
 */
module Strptime {
  import opened Common
  import opened Text
  import opened Calendar

  datatype Token =
    | Year4       // %Y: exactly four digits
    | Year2       // %y: two digits, 00-68 -> 20xx, 69-99 -> 19xx
    | MonthNum    // %m: 1[0-2] | 0[1-9] | [1-9]
    | DayNum      // %d: 3[01] | [12]\d | 0[1-9] | [1-9] | ' '[1-9]
    | MonthName   // %B: an English month name, any case
    | MonthAbbr   // %b: an English three-letter month abbreviation, any case
    | Blank       // a whitespace run in the format: \s+
    | Lit(c: char)
    | BadDirective

  function DirectiveToken(c: char): Token {
    match c
    case 'Y' => Year4
    case 'y' => Year2
    case 'm' => MonthNum
    case 'd' => DayNum
    case 'B' => MonthName
    case 'b' => MonthAbbr
    case _ => BadDirective
  }

  /** The token sequence CPython's `TimeRE.pattern` builds from a format string. */
  function Compile(fmt: string): seq<Token>
    decreases |fmt|
  {
    if fmt == [] then []
    else if fmt[0] == '%' then
      if |fmt| == 1 then [BadDirective] else [DirectiveToken(fmt[1])] + Compile(fmt[2..])
    else if IsSpace(fmt[0]) then [Blank] + Compile(TrimStart(fmt))
    else [Lit(fmt[0])] + Compile(fmt[1..])
  }

  datatype Slot = NoSlot | YearSlot | MonthSlot | DaySlot

  /** One way a token can match: how many characters it takes and what it sets. */
  datatype Piece = Piece(width: nat, slot: Slot, value: int)

  /** What the matched groups set; `strptime` starts from 1900-01-01. */
  datatype Fields = Fields(year: int, month: int, day: int)

  function Assign(f: Fields, p: Piece): Fields {
    match p.slot
    case NoSlot => f
    case YearSlot => f.(year := p.value)
    case MonthSlot => f.(month := p.value)
    case DaySlot => f.(day := p.value)
  }

  /** `s[i]`, or a NUL past either end (NUL belongs to no class used here). */
  function Ch(s: string, i: int): char {
    if 0 <= i < |s| then s[i] else '\0'
  }

  /** The English name of month `m`, lower case: `calendar.month_name`. */
  const MonthWords: seq<string> := [
    "january", "february", "march", "april", "may", "june",
    "july", "august", "september", "october", "november", "december"]

  function MonthWord(m: nat): (w: string)
    requires 1 <= m <= 12
    ensures |w| >= 3
  {
    MonthWords[m - 1]
  }

  /** `%B` matches the whole name, `%b` its first three letters (`calendar.month_abbr`). */
  function MonthSpelling(m: nat, abbr: bool): (w: string)
    requires 1 <= m <= 12
    ensures w != []
  {
    if abbr then MonthWord(m)[..3] else MonthWord(m)
  }

  /** Length of the whitespace run that starts at `pos`. */
  function SpaceRun(s: string, pos: nat): nat
    decreases |s| - pos
  {
    if pos < |s| && IsSpace(s[pos]) then 1 + SpaceRun(s, pos + 1) else 0
  }

  /**
   * The months, from `m` on, whose name matches at `pos`, case-insensitively.
   * No name is a prefix of another, so at most one matches and the order
   * of the regex alternation does not matter.
   */
  function NameOptions(s: string, pos: nat, abbr: bool, m: nat): seq<Piece>
    requires m >= 1
    decreases 13 - m
  {
    if m > 12 then []
    else
      var n := MonthSpelling(m, abbr);
      (if LowerMatchAt(s, pos, n) then [Piece(|n|, MonthSlot, m)] else [])
      + NameOptions(s, pos, abbr, m + 1)
  }

  /** The lower-case word `n` occurs at `pos` when `s` is read in lower case. */
  predicate LowerMatchAt(s: string, pos: nat, n: string) {
    pos + |n| <= |s| && forall i | 0 <= i < |n| :: LowerChar(s[pos + i]) == n[i]
  }

  /** `%Y`: `\d{4}`. */
  function YearOptions(s: string, pos: nat): seq<Piece> {
    if pos + 4 <= |s| && AllDigits(s[pos..pos + 4])
    then [Piece(4, YearSlot, DigitsValue(s[pos..pos + 4]))] else []
  }

  /** `%y`: `\d\d`, mapped to 2000-2068 or 1969-1999. */
  function ShortYearOptions(s: string, pos: nat): seq<Piece> {
    if pos + 2 <= |s| && AllDigits(s[pos..pos + 2])
    then var v := DigitsValue(s[pos..pos + 2]);
      [Piece(2, YearSlot, if v <= 68 then v + 2000 else v + 1900)]
    else []
  }

  /**
   * `%m`: `1[0-2]|0[1-9]|[1-9]`. The alternatives that can match at `pos`,
   * in the order the regex tries them.
   */
  function MonthOptions(s: string, pos: nat): seq<Piece> {
    var c0, c1 := Ch(s, pos), Ch(s, pos + 1);
    if c0 == '1' && '0' <= c1 <= '2' then [Piece(2, MonthSlot, 10 + DigitOf(c1)), Piece(1, MonthSlot, 1)]
    else if c0 == '0' && '1' <= c1 <= '9' then [Piece(2, MonthSlot, DigitOf(c1))]
    else if '1' <= c0 <= '9' then [Piece(1, MonthSlot, DigitOf(c0))]
    else []
  }

  /**
   * `%d`: `3[01]|[12]\d|0[1-9]|[1-9]| [1-9]`. The alternatives that can
   * match at `pos`, in the order the regex tries them.
   */
  function DayOptions(s: string, pos: nat): seq<Piece> {
    var c0, c1 := Ch(s, pos), Ch(s, pos + 1);
    if c0 == '3' && '0' <= c1 <= '1' then [Piece(2, DaySlot, 30 + DigitOf(c1)), Piece(1, DaySlot, 3)]
    else if '1' <= c0 <= '2' && IsDigit(c1) then
      [Piece(2, DaySlot, 10 * DigitOf(c0) + DigitOf(c1)), Piece(1, DaySlot, DigitOf(c0))]
    else if c0 == '0' && '1' <= c1 <= '9' then [Piece(2, DaySlot, DigitOf(c1))]
    else if '1' <= c0 <= '9' then [Piece(1, DaySlot, DigitOf(c0))]
    else if c0 == ' ' && '1' <= c1 <= '9' then [Piece(2, DaySlot, DigitOf(c1))]
    else []
  }

  /** Blank pieces of widths `n`, `n - 1`, ..., `1`. */
  function Blanks(n: nat): seq<Piece> {
    if n == 0 then [] else [Piece(n, NoSlot, 0)] + Blanks(n - 1)
  }

  /** `\s+`: greedy, so the longest run is tried first. */
  function BlankOptions(s: string, pos: nat): seq<Piece> {
    Blanks(SpaceRun(s, pos))
  }

  /** A literal character, compared case-insensitively. */
  function LitOptions(c: char, s: string, pos: nat): seq<Piece> {
    if pos < |s| && LowerChar(s[pos]) == LowerChar(c) then [Piece(1, NoSlot, 0)] else []
  }

  /** The ways token `t` can match at `pos`, in the order the regex tries them. */
  function Options(t: Token, s: string, pos: nat): seq<Piece> {
    match t
    case Year4 => YearOptions(s, pos)
    case Year2 => ShortYearOptions(s, pos)
    case MonthNum => MonthOptions(s, pos)
    case DayNum => DayOptions(s, pos)
    case MonthName => NameOptions(s, pos, false, 1)
    case MonthAbbr => NameOptions(s, pos, true, 1)
    case Blank => BlankOptions(s, pos)
    case Lit(c) => LitOptions(c, s, pos)
    case BadDirective => []
  }

  /**
   * `re.match` of the compiled pattern at `pos`: the first way, in
   * backtracking order, to match every token; the fields set and where the
   * match ends.
   */
  function Run(toks: seq<Token>, s: string, pos: nat, f: Fields): Option<(Fields, nat)>
    decreases |toks|, 1
  {
    if toks == [] then Some((f, pos))
    else TryOptions(toks, Options(toks[0], s, pos), s, pos, f)
  }

  function TryOptions(toks: seq<Token>, opts: seq<Piece>, s: string, pos: nat, f: Fields): Option<(Fields, nat)>
    requires toks != []
    decreases |toks|, 0, |opts|
  {
    if opts == [] then None
    else
      match Attempt(toks, opts[0], s, pos, f)
      case Some(r) => Some(r)
      case None => TryOptions(toks, opts[1..], s, pos, f)
  }

  /** The remaining tokens, once the first has taken piece `p`. */
  function Attempt(toks: seq<Token>, p: Piece, s: string, pos: nat, f: Fields): Option<(Fields, nat)>
    requires toks != []
    decreases |toks|, 0, 0
  {
    Run(toks[1..], s, pos + p.width, Assign(f, p))
  }

  /** `datetime.strptime(s, fmt)`, with `None` where it raises `ValueError`. */
  function Parse(fmt: string, s: string): (r: Option<Date>)
    ensures r.Some? ==> IsValidDate(r.value)
  {
    match Run(Compile(fmt), s, 0, Fields(1900, 1, 1))
    case None => None
    case Some((f, end)) =>
      var d := Date(f.year, f.month, f.day);
      if end == |s| && 1 <= d.month <= 12 && IsValidDate(d) then Some(d) else None
  }

  /** The first result that is there, with its index. */
  function FirstSome<T>(rs: seq<Option<T>>): (r: Option<(nat, T)>)
    ensures r.Some? ==>
      && r.value.0 < |rs|
      && rs[r.value.0] == Some(r.value.1)
      && (forall j | 0 <= j < r.value.0 :: rs[j].None?)
    ensures r.None? ==> forall j | 0 <= j < |rs| :: rs[j].None?
  {
    if rs == [] then None
    else
      match rs[0]
      case Some(d) => Some((0, d))
      case None =>
        match FirstSome(rs[1..])
        case None => None
        case Some((i, d)) => Some((i + 1, d))
  }

  /** What each format of the list makes of `s`. */
  function ParseEach(formats: seq<string>, s: string): (rs: seq<Option<Date>>)
    ensures |rs| == |formats| && forall j | 0 <= j < |formats| :: rs[j] == Parse(formats[j], s)
  {
    seq(|formats|, j requires 0 <= j < |formats| => Parse(formats[j], s))
  }

  /**
   * The first format in the list that parses `s`, with its index: the
   * `for fmt in formats: try: return ... except ValueError: continue` loop.
   */
  function FirstParse(formats: seq<string>, s: string): (r: Option<(nat, Date)>)
    ensures r.Some? ==>
      && r.value.0 < |formats|
      && Parse(formats[r.value.0], s) == Some(r.value.1)
      && (forall j | 0 <= j < r.value.0 :: Parse(formats[j], s).None?)
    ensures r.None? ==> forall j | 0 <= j < |formats| :: Parse(formats[j], s).None?
  {
    FirstSome(ParseEach(formats, s))
  }

  // ---------------------------------------------------------------------
  // Round trip: '%Y-%m-%d' reads back every rendered date
  // ---------------------------------------------------------------------

  lemma CompileIso()
    ensures Compile("%Y-%m-%d") == [Year4, Lit('-'), MonthNum, Lit('-'), DayNum]
  {
    CompileTriple('Y', 'm', 'd', '-');
  }

  lemma PadTwo(n: nat)
    requires n < 100
    ensures Pad(n, 2) == [DigitChar(n / 10), DigitChar(n % 10)]
  {
    assert Pad(n / 10, 1) == [DigitChar(n / 10 % 10)];
    assert n / 10 % 10 == n / 10;
  }

  lemma PadFour(n: nat)
    requires n < 10000
    ensures Pad(n, 4) == [DigitChar(n / 1000), DigitChar(n / 100 % 10), DigitChar(n / 10 % 10), DigitChar(n % 10)]
  {
    PadTwo(n / 100);
    assert n / 10 / 10 == n / 100;
    assert n / 100 / 10 == n / 1000;
    assert Pad(n / 10, 3) == Pad(n / 100, 2) + [DigitChar(n / 10 % 10)];
  }

  /** `%Y` cannot begin where one of the first four characters is not a digit. */
  lemma NoYearAt(s: string, i: nat)
    requires i < 4 && i < |s| && !IsDigit(s[i])
    ensures Options(Year4, s, 0) == []
  {
    assert |s| < 4 || !AllDigits(s[..4]) by { assert |s| < 4 || s[..4][i] == s[i]; }
  }

  /** The two characters at `pos` are the digits of `n`. */
  lemma TwoDigitsAt(s: string, pos: nat, n: nat)
    requires n < 100 && pos + 2 <= |s| && s[pos..pos + 2] == Pad(n, 2)
    ensures Ch(s, pos) == DigitChar(n / 10) && Ch(s, pos + 1) == DigitChar(n % 10)
  {
    PadTwo(n);
    assert s[pos] == s[pos..pos + 2][0] && s[pos + 1] == s[pos..pos + 2][1];
  }

  /** `%m` on a two-digit month tries the two-character alternative first. */
  lemma MonthFirstOption(s: string, pos: nat, m: int)
    requires 1 <= m <= 12 && pos + 2 <= |s| && s[pos..pos + 2] == Pad(m, 2)
    ensures |MonthOptions(s, pos)| > 0 && MonthOptions(s, pos)[0] == Piece(2, MonthSlot, m)
  {
    TwoDigitsAt(s, pos, m);
  }

  /** `%d` on a two-digit day tries the two-character alternative first. */
  lemma DayFirstOption(s: string, pos: nat, d: int)
    requires 1 <= d <= 31 && pos + 2 <= |s| && s[pos..pos + 2] == Pad(d, 2)
    ensures |DayOptions(s, pos)| > 0 && DayOptions(s, pos)[0] == Piece(2, DaySlot, d)
  {
    TwoDigitsAt(s, pos, d);
  }

  /** `Run` tries the alternatives of the first token. */
  lemma RunStep(toks: seq<Token>, s: string, pos: nat, f: Fields)
    requires toks != []
    ensures Run(toks, s, pos, f) == TryOptions(toks, Options(toks[0], s, pos), s, pos, f)
  {
  }

  /** When the first alternative leads to a match, that match is the result. */
  lemma TryFirst(toks: seq<Token>, opts: seq<Piece>, s: string, pos: nat, f: Fields, r: (Fields, nat))
    requires toks != [] && opts != []
    requires Run(toks[1..], s, pos + opts[0].width, Assign(f, opts[0])) == Some(r)
    ensures TryOptions(toks, opts, s, pos, f) == Some(r)
  {
  }

  /** `%Y` on four digits takes them as the year. */
  lemma YearOption(s: string, pos: nat, y: int)
    requires 1 <= y <= 9999 && pos + 4 <= |s| && s[pos..pos + 4] == Pad(y, 4)
    ensures YearOptions(s, pos) == [Piece(4, YearSlot, y)]
  {
    PadValue(y, 4);
  }

  /** A literal matches the same character. */
  lemma LitOption(s: string, pos: nat, c: char)
    requires pos < |s| && s[pos] == c
    ensures LitOptions(c, s, pos) == [Piece(1, NoSlot, 0)]
  {
  }

  /** The day after the second dash of a rendered date. */
  lemma IsoDay(d: Date, f: Fields)
    requires IsValidDate(d)
    ensures Run([Lit('-'), DayNum], IsoFormat(d), 7, f) == Some((f.(day := d.day), 10))
  {
    var s := IsoFormat(d);
    var toks := [Lit('-'), DayNum];
    var r := (f.(day := d.day), 10);
    assert s[8..10] == Pad(d.day, 2);
    assert Run(toks[2..], s, 10, r.0) == Some(r);
    DayFirstOption(s, 8, d.day);
    RunStep(toks[1..], s, 8, f);
    TryFirst(toks[1..], Options(toks[1..][0], s, 8), s, 8, f, r);
    LitOption(s, 7, '-');
    RunStep(toks, s, 7, f);
    TryFirst(toks, Options(toks[0], s, 7), s, 7, f, r);
  }

  /** Month and day after the first dash of a rendered date. */
  lemma IsoMonthDay(d: Date, f: Fields)
    requires IsValidDate(d)
    ensures Run([Lit('-'), MonthNum, Lit('-'), DayNum], IsoFormat(d), 4, f)
      == Some((f.(month := d.month, day := d.day), 10))
  {
    var s := IsoFormat(d);
    var toks := [Lit('-'), MonthNum, Lit('-'), DayNum];
    var r := (f.(month := d.month, day := d.day), 10);
    assert s[5..7] == Pad(d.month, 2);
    IsoDay(d, f.(month := d.month));
    assert toks[2..] == [Lit('-'), DayNum];
    MonthFirstOption(s, 5, d.month);
    RunStep(toks[1..], s, 5, f);
    TryFirst(toks[1..], Options(toks[1..][0], s, 5), s, 5, f, r);
    LitOption(s, 4, '-');
    RunStep(toks, s, 4, f);
    TryFirst(toks, Options(toks[0], s, 4), s, 4, f, r);
  }

  /** `strptime(date.strftime('%Y-%m-%d'), '%Y-%m-%d')` gives the date back. */
  lemma IsoRoundTrip(d: Date)
    requires IsValidDate(d)
    ensures Parse("%Y-%m-%d", IsoFormat(d)) == Some(d)
  {
    var s := IsoFormat(d);
    var toks := [Year4, Lit('-'), MonthNum, Lit('-'), DayNum];
    CompileIso();
    assert s[..4] == Pad(d.year, 4);
    var f1 := Fields(d.year, 1, 1);
    IsoMonthDay(d, f1);
    assert toks[1..] == [Lit('-'), MonthNum, Lit('-'), DayNum];
    YearOption(s, 0, d.year);
    RunStep(toks, s, 0, Fields(1900, 1, 1));
    TryFirst(toks, Options(toks[0], s, 0), s, 0, Fields(1900, 1, 1), (Fields(d.year, d.month, d.day), 10));
    ParseOfRun("%Y-%m-%d", s, d);
  }

  /** A format whose tokens consume all of `s` and set a valid date parses to that date. */
  lemma ParseOfRun(fmt: string, s: string, d: Date)
    requires IsValidDate(d) && Run(Compile(fmt), s, 0, Fields(1900, 1, 1)) == Some((Fields(d.year, d.month, d.day), |s|))
    ensures Parse(fmt, s) == Some(d)
  {
  }

  /** `a<sep>b<sep>c`: two two-digit fields and a four-digit one. */
  function Separated(a: nat, b: nat, c: nat, sep: char): (s: string)
    ensures |s| == 10 && s[2] == sep && s[5] == sep
    ensures s[0..2] == Pad(a, 2) && s[3..5] == Pad(b, 2) && s[6..10] == Pad(c, 4)
  {
    Pad(a, 2) + [sep] + Pad(b, 2) + [sep] + Pad(c, 4)
  }

  /** A format of three directives separated by one literal character. */
  function Triple(x: char, y: char, z: char, sep: char): string {
    ['%', x, sep, '%', y, sep, '%', z]
  }

  lemma CompileTriple(x: char, y: char, z: char, sep: char)
    requires sep != '%' && !IsSpace(sep)
    ensures Compile(Triple(x, y, z, sep))
      == [DirectiveToken(x), Lit(sep), DirectiveToken(y), Lit(sep), DirectiveToken(z)]
  {
    var fmt := Triple(x, y, z, sep);
    assert Compile(fmt[8..]) == [] by { assert fmt[8..] == []; }
    assert Compile(fmt[6..]) == [DirectiveToken(z)] by { assert fmt[6..][2..] == fmt[8..]; }
    assert Compile(fmt[5..]) == [Lit(sep), DirectiveToken(z)] by { assert fmt[5..][1..] == fmt[6..]; }
    assert Compile(fmt[3..]) == [DirectiveToken(y), Lit(sep), DirectiveToken(z)] by {
      assert fmt[3..][2..] == fmt[5..];
    }
    assert Compile(fmt[2..]) == [Lit(sep), DirectiveToken(y), Lit(sep), DirectiveToken(z)] by {
      assert fmt[2..][1..] == fmt[3..];
    }
  }

  /** A directive compiles to its token. */
  lemma CompileDirective(fmt: string)
    requires |fmt| >= 2 && fmt[0] == '%'
    ensures Compile(fmt) == [DirectiveToken(fmt[1])] + Compile(fmt[2..])
  {
  }

  /** One whitespace character before a non-space compiles to a blank. */
  lemma CompileBlank(fmt: string)
    requires |fmt| >= 2 && IsSpace(fmt[0]) && !IsSpace(fmt[1])
    ensures Compile(fmt) == [Blank] + Compile(fmt[1..])
  {
    assert TrimStart(fmt[1..]) == fmt[1..];
  }

  /** Any other character compiles to itself as a literal. */
  lemma CompileLiteral(fmt: string)
    requires fmt != [] && fmt[0] != '%' && !IsSpace(fmt[0])
    ensures Compile(fmt) == [Lit(fmt[0])] + Compile(fmt[1..])
  {
  }

  /** How a format that opens with a directive and a literal character compiles. */
  lemma CompileHead(fmt: string)
    requires |fmt| >= 3 && fmt[0] == '%' && fmt[2] != '%' && !IsSpace(fmt[2])
    ensures |Compile(fmt)| >= 2 && Compile(fmt)[0] == DirectiveToken(fmt[1]) && Compile(fmt)[1] == Lit(fmt[2])
  {
    assert fmt[2..][1..] == fmt[3..];
  }

  /** The year after the second separator. */
  lemma SeparatedYear(a: nat, b: nat, y: int, sep: char, f: Fields)
    requires 1 <= y <= 9999
    ensures Run([Lit(sep), Year4], Separated(a, b, y, sep), 5, f) == Some((f.(year := y), 10))
  {
    var s := Separated(a, b, y, sep);
    var toks := [Lit(sep), Year4];
    var r := (f.(year := y), 10);
    assert Run(toks[2..], s, 10, r.0) == Some(r);
    YearOption(s, 6, y);
    RunStep(toks[1..], s, 6, f);
    TryFirst(toks[1..], Options(toks[1..][0], s, 6), s, 6, f, r);
    LitOption(s, 5, sep);
    RunStep(toks, s, 5, f);
    TryFirst(toks, Options(toks[0], s, 5), s, 5, f, r);
  }

  /** The middle field, and what follows it. */
  lemma SeparatedMiddleField(a: nat, b: nat, y: int, sep: char, t: Token, p: Piece, f: Fields)
    requires 1 <= y <= 9999 && p.width == 2
    requires |Options(t, Separated(a, b, y, sep), 3)| > 0 && Options(t, Separated(a, b, y, sep), 3)[0] == p
    ensures Run([t, Lit(sep), Year4], Separated(a, b, y, sep), 3, f) == Some((Assign(f, p).(year := y), 10))
  {
    var toks := [t, Lit(sep), Year4];
    SeparatedYear(a, b, y, sep, Assign(f, p));
    assert toks[1..] == [Lit(sep), Year4];
    RunStep(toks, Separated(a, b, y, sep), 3, f);
    TryFirst(toks, Options(toks[0], Separated(a, b, y, sep), 3), Separated(a, b, y, sep), 3, f, (Assign(f, p).(year := y), 10));
  }

  /** The first separator, and what follows it. */
  lemma SeparatedMiddle(a: nat, b: nat, y: int, sep: char, t: Token, p: Piece, f: Fields)
    requires 1 <= y <= 9999 && p.width == 2
    requires |Options(t, Separated(a, b, y, sep), 3)| > 0 && Options(t, Separated(a, b, y, sep), 3)[0] == p
    ensures Run([Lit(sep), t, Lit(sep), Year4], Separated(a, b, y, sep), 2, f)
      == Some((Assign(f, p).(year := y), 10))
  {
    var s := Separated(a, b, y, sep);
    var toks := [Lit(sep), t, Lit(sep), Year4];
    var r := (Assign(f, p).(year := y), 10);
    SeparatedMiddleField(a, b, y, sep, t, p, f);
    assert toks[1..] == [t, Lit(sep), Year4];
    LitOption(s, 2, sep);
    var opts := Options(toks[0], s, 2);
    assert opts == [Piece(1, NoSlot, 0)];
    assert Assign(f, opts[0]) == f;
    assert Run(toks[1..], s, 2 + opts[0].width, Assign(f, opts[0])) == Some(r);
    RunStep(toks, s, 2, f);
    TryFirst(toks, opts, s, 2, f, r);
  }

  /**
   * `strptime(date.strftime(fmt), fmt)` gives the date back for the
   * day-first format `%d<sep>%m<sep>%Y`.
   */
  lemma DmyRoundTrip(d: Date, sep: char)
    requires IsValidDate(d) && sep != '%' && !IsSpace(sep)
    ensures Parse(Triple('d', 'm', 'Y', sep), Separated(d.day, d.month, d.year, sep)) == Some(d)
  {
    var s := Separated(d.day, d.month, d.year, sep);
    var toks := [DayNum, Lit(sep), MonthNum, Lit(sep), Year4];
    var f1 := Fields(1900, 1, d.day);
    var r := (Fields(d.year, d.month, d.day), 10);
    MonthFirstOption(s, 3, d.month);
    SeparatedMiddle(d.day, d.month, d.year, sep, MonthNum, Piece(2, MonthSlot, d.month), f1);
    assert toks[1..] == [Lit(sep), MonthNum, Lit(sep), Year4];
    DayFirstOption(s, 0, d.day);
    RunStep(toks, s, 0, Fields(1900, 1, 1));
    TryFirst(toks, Options(toks[0], s, 0), s, 0, Fields(1900, 1, 1), r);
    CompileTriple('d', 'm', 'Y', sep);
    ParseOfRun(Triple('d', 'm', 'Y', sep), s, d);
  }

  /** The same for the month-first format `%m<sep>%d<sep>%Y`. */
  lemma MdyRoundTrip(d: Date, sep: char)
    requires IsValidDate(d) && sep != '%' && !IsSpace(sep)
    ensures Parse(Triple('m', 'd', 'Y', sep), Separated(d.month, d.day, d.year, sep)) == Some(d)
  {
    var s := Separated(d.month, d.day, d.year, sep);
    var toks := [MonthNum, Lit(sep), DayNum, Lit(sep), Year4];
    var f1 := Fields(1900, d.month, 1);
    var r := (Fields(d.year, d.month, d.day), 10);
    DayFirstOption(s, 3, d.day);
    SeparatedMiddle(d.month, d.day, d.year, sep, DayNum, Piece(2, DaySlot, d.day), f1);
    assert toks[1..] == [Lit(sep), DayNum, Lit(sep), Year4];
    MonthFirstOption(s, 0, d.month);
    RunStep(toks, s, 0, Fields(1900, 1, 1));
    TryFirst(toks, Options(toks[0], s, 0), s, 0, Fields(1900, 1, 1), r);
    CompileTriple('m', 'd', 'Y', sep);
    ParseOfRun(Triple('m', 'd', 'Y', sep), s, d);
  }

  // ---------------------------------------------------------------------
  // Formats that cannot read a rendered date, and the first-match rule
  // ---------------------------------------------------------------------

  /** When no alternative of the first token leads to a match, nothing matches. */
  lemma {:induction false} TryNone(toks: seq<Token>, opts: seq<Piece>, s: string, pos: nat, f: Fields)
    requires toks != []
    requires forall k | 0 <= k < |opts| :: Attempt(toks, opts[k], s, pos, f).None?
    ensures TryOptions(toks, opts, s, pos, f).None?
    decreases |opts|
  {
    if opts != [] {
      assert forall k | 0 <= k < |opts[1..]| :: opts[1..][k] == opts[k + 1];
      TryNone(toks, opts[1..], s, pos, f);
    }
  }

  /** `%m` and `%d` take one or two characters. */
  lemma NumberWidths(t: Token, s: string, pos: nat)
    requires t == MonthNum || t == DayNum
    ensures forall k | 0 <= k < |Options(t, s, pos)| :: 1 <= Options(t, s, pos)[k].width <= 2
  {
  }

  /**
   * When the literal after the first token differs from the character
   * after each way the first token can match, the format cannot read `s`.
   */
  lemma LiteralMissFails(toks: seq<Token>, s: string, f: Fields)
    requires |toks| >= 2 && toks[1].Lit?
    requires forall k | 0 <= k < |Options(toks[0], s, 0)| ::
      LowerChar(Ch(s, Options(toks[0], s, 0)[k].width)) != LowerChar(toks[1].c)
    ensures Run(toks, s, 0, f).None?
  {
    var opts := Options(toks[0], s, 0);
    forall k | 0 <= k < |opts|
      ensures Attempt(toks, opts[k], s, 0, f).None?
    {
      LiteralMiss(toks[1..], s, opts[k].width, Assign(f, opts[k]));
    }
    TryNone(toks, opts, s, 0, f);
  }

  /** A literal that differs from the character at `pos` stops the match there. */
  lemma LiteralMiss(toks: seq<Token>, s: string, pos: nat, f: Fields)
    requires toks != [] && toks[0].Lit? && LowerChar(Ch(s, pos)) != LowerChar(toks[0].c)
    ensures Run(toks, s, pos, f).None?
  {
    assert LitOptions(toks[0].c, s, pos) == [];
    assert Run(toks, s, pos, f) == TryOptions(toks, [], s, pos, f);
  }

  /**
   * A format that opens with `%m` or `%d` and a literal cannot read text
   * whose second and third characters both differ from that literal.
   */
  lemma NumberThenLiteralMisses(toks: seq<Token>, s: string, f: Fields)
    requires |toks| >= 2 && (toks[0] == MonthNum || toks[0] == DayNum) && toks[1].Lit?
    requires LowerChar(Ch(s, 1)) != LowerChar(toks[1].c) && LowerChar(Ch(s, 2)) != LowerChar(toks[1].c)
    ensures Run(toks, s, 0, f).None?
  {
    NumberWidths(toks[0], s, 0);
    LiteralMissFails(toks, s, f);
  }

  /**
   * A format that opens with `%m` or `%d` and a non-digit literal cannot
   * read text whose first three characters are digits, such as a
   * rendered date.
   */
  lemma NumberThenLiteralFails(toks: seq<Token>, s: string, f: Fields)
    requires |toks| >= 2 && (toks[0] == MonthNum || toks[0] == DayNum)
    requires toks[1].Lit? && !IsDigit(LowerChar(toks[1].c))
    requires |s| >= 3 && IsDigit(s[0]) && IsDigit(s[1]) && IsDigit(s[2])
    ensures Run(toks, s, 0, f).None?
  {
    assert LowerChar(Ch(s, 1)) == s[1] && LowerChar(Ch(s, 2)) == s[2];
    NumberThenLiteralMisses(toks, s, f);
  }

  lemma DirectiveFirstFails(fmt: string, s: string)
    requires |fmt| >= 2 && fmt[0] == '%' && Options(DirectiveToken(fmt[1]), s, 0) == []
    ensures Parse(fmt, s).None?
  {
    assert Compile(fmt) == [DirectiveToken(fmt[1])] + Compile(fmt[2..]);
    FirstTokenFails(fmt, s);
  }

  /** The first format of the list that parses `s` is the one `FirstParse` reports. */
  lemma FirstParseAt(formats: seq<string>, s: string, i: nat, d: Date)
    requires i < |formats| && Parse(formats[i], s) == Some(d)
    requires forall j | 0 <= j < i :: Parse(formats[j], s).None?
    ensures FirstParse(formats, s) == Some((i, d))
  {
    match FirstParse(formats, s)
    case None =>
    case Some((k, e)) =>
      if k < i {
      } else if i < k {
      }
  }

  /** A format whose first token has no alternative at the start cannot parse `s`. */
  lemma FirstTokenFails(fmt: string, s: string)
    requires Compile(fmt) != [] && Options(Compile(fmt)[0], s, 0) == []
    ensures Parse(fmt, s).None?
  {
    var toks := Compile(fmt);
    assert Run(toks, s, 0, Fields(1900, 1, 1)) == TryOptions(toks, [], s, 0, Fields(1900, 1, 1));
  }

  /** No month from `m` on has a name that starts with the (lower-cased) character at `pos`. */
  lemma {:induction false} NamesMissAt(s: string, pos: nat, abbr: bool, m: nat)
    requires pos < |s| && m >= 1
    requires forall k | m <= k <= 12 :: MonthSpelling(k, abbr)[0] != LowerChar(s[pos])
    ensures NameOptions(s, pos, abbr, m) == []
    decreases 13 - m
  {
    if m <= 12 {
      NamesMissAt(s, pos, abbr, m + 1);
    }
  }

  /** Every English month name starts with one of `jfmasond`. */
  lemma MonthInitials(c: char, abbr: bool)
    requires c !in "jfmasond"
    ensures forall k | 1 <= k <= 12 :: MonthSpelling(k, abbr)[0] != c
  {
    forall k | 1 <= k <= 12
      ensures MonthSpelling(k, abbr)[0] != c
    {
      assert MonthSpelling(k, abbr)[0] == MonthWord(k)[0];
    }
  }

  // ---------------------------------------------------------------------
  // Month names: at most one matches at a position
  // ---------------------------------------------------------------------

  /** The month whose lower-case name starts with the letters `a`, `b`, `c`, 0 for none. */
  function AbbrevMonth(a: char, b: char, c: char): nat {
    match (a, b, c)
    case ('j', 'a', 'n') => 1 case ('f', 'e', 'b') => 2 case ('m', 'a', 'r') => 3
    case ('a', 'p', 'r') => 4 case ('m', 'a', 'y') => 5 case ('j', 'u', 'n') => 6
    case ('j', 'u', 'l') => 7 case ('a', 'u', 'g') => 8 case ('s', 'e', 'p') => 9
    case ('o', 'c', 't') => 10 case ('n', 'o', 'v') => 11 case ('d', 'e', 'c') => 12
    case _ => 0
  }

  /** The first three letters of a month's name identify it. */
  lemma AbbrevMonthOf(m: nat)
    requires 1 <= m <= 12
    ensures AbbrevMonth(MonthWord(m)[0], MonthWord(m)[1], MonthWord(m)[2]) == m
  {
  }

  /** Two months whose spellings both match at `pos` are the same month. */
  lemma NameMatchUnique(s: string, pos: nat, abbr: bool, m: nat, k: nat)
    requires 1 <= m <= 12 && 1 <= k <= 12
    requires LowerMatchAt(s, pos, MonthSpelling(m, abbr)) && LowerMatchAt(s, pos, MonthSpelling(k, abbr))
    ensures m == k
  {
    forall i | 0 <= i < 3 ensures MonthWord(m)[i] == MonthWord(k)[i] {
      assert MonthSpelling(m, abbr)[i] == MonthWord(m)[i] && MonthSpelling(k, abbr)[i] == MonthWord(k)[i];
      assert LowerChar(s[pos + i]) == MonthSpelling(m, abbr)[i];
    }
    AbbrevMonthOf(m);
    AbbrevMonthOf(k);
  }

  /** One month of the alternation, then the rest. */
  lemma NameOptionsUnfold(s: string, pos: nat, abbr: bool, k: nat)
    requires 1 <= k <= 12
    ensures NameOptions(s, pos, abbr, k) ==
      (if LowerMatchAt(s, pos, MonthSpelling(k, abbr)) then [Piece(|MonthSpelling(k, abbr)|, MonthSlot, k)] else [])
      + NameOptions(s, pos, abbr, k + 1)
  {
  }

  /** Where month `m`'s spelling matches, the months from `k` on offer `m` alone, once `k` is past it none. */
  lemma {:induction false} NameOptionsOnly(s: string, pos: nat, abbr: bool, m: nat, k: nat)
    requires 1 <= m <= 12 && k >= 1 && LowerMatchAt(s, pos, MonthSpelling(m, abbr))
    ensures NameOptions(s, pos, abbr, k) ==
      if k <= m then [Piece(|MonthSpelling(m, abbr)|, MonthSlot, m)] else []
    decreases 13 - k
  {
    if k <= 12 {
      NameOptionsOnly(s, pos, abbr, m, k + 1);
      NameOptionsUnfold(s, pos, abbr, k);
      if k != m && LowerMatchAt(s, pos, MonthSpelling(k, abbr)) {
        NameMatchUnique(s, pos, abbr, m, k);
      }
    }
  }

  /** `%B` or `%b` where month `m` is spelled: the one alternative, that month. */
  lemma NameOption(s: string, pos: nat, abbr: bool, m: nat)
    requires 1 <= m <= 12 && LowerMatchAt(s, pos, MonthSpelling(m, abbr))
    ensures Options(if abbr then MonthAbbr else MonthName, s, pos) == [Piece(|MonthSpelling(m, abbr)|, MonthSlot, m)]
  {
    NameOptionsOnly(s, pos, abbr, m, 1);
  }

  /** A whitespace run of one character before a non-space. */
  lemma SingleBlank(s: string, pos: nat)
    requires pos + 1 < |s| && IsSpace(s[pos]) && !IsSpace(s[pos + 1])
    ensures Options(Blank, s, pos) == [Piece(1, NoSlot, 0)]
  {
    assert SpaceRun(s, pos + 1) == 0;
  }
}
