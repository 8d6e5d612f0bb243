/**
 * The Austrian lobbying register's date reader, `parse_german_date`: six
 * `strptime` formats tried in order on the stripped text, and the stripped
 * text itself when none of them reads it.
 */
module Austrian {
  import opened Common
  import opened Text
  import opened Calendar
  import opened Strptime

  /** Dotted, dotted with blanks, slashed (all day first), ISO, dotted with a two-digit year, dashed. */
  const GermanFormats: seq<string> :=
    ["%d.%m.%Y", "%d. %m. %Y", "%d/%m/%Y", "%Y-%m-%d", "%d.%m.%y", "%d-%m-%Y"]

  /** The day-first formats without blanks as directive and separator characters. */
  lemma GermanShapes()
    ensures GermanFormats[0] == Triple('d', 'm', 'Y', '.') && GermanFormats[2] == Triple('d', 'm', 'Y', '/')
    ensures GermanFormats[5] == Triple('d', 'm', 'Y', '-')
  {
  }

  /**
   * `parse_german_date(date_str)`: `None` for the empty string; the first
   * format that reads the stripped text gives `YYYY-MM-DD`; otherwise the
   * stripped text.
   */
  function ParseGermanDate(s: string): (r: Option<string>)
    ensures r.None? <==> s == []
    ensures r.Some? ==> r.value == Strip(s) || IsIsoShaped(r.value)
  {
    if s == [] then None
    else
      var t := Strip(s);
      match FirstParse(GermanFormats, t)
      case Some((_, d)) => Some(IsoFormat(d))
      case None => Some(t)
  }

  /** The first format that reads the stripped text decides the result. */
  lemma GermanFirstMatch(s: string, i: nat, d: Date)
    requires s != [] && i < |GermanFormats| && Parse(GermanFormats[i], Strip(s)) == Some(d)
    requires forall j | 0 <= j < i :: Parse(GermanFormats[j], Strip(s)).None?
    ensures ParseGermanDate(s) == Some(IsoFormat(d))
  {
    FirstParseAt(GermanFormats, Strip(s), i, d);
  }

  /** Non-empty text no format reads comes back stripped, never as `None`. */
  lemma GermanFallback(s: string)
    requires s != [] && forall j | 0 <= j < |GermanFormats| :: Parse(GermanFormats[j], Strip(s)).None?
    ensures ParseGermanDate(s) == Some(Strip(s))
  {
  }

  /** Each result is the ISO rendering of a real date or the stripped input. */
  lemma GermanResult(s: string)
    requires s != []
    ensures var r := ParseGermanDate(s).value;
      r == Strip(s) || exists d :: IsValidDate(d) && r == IsoFormat(d)
  {
  }

  /**
   * A day-first format whose literal after the day is `c` cannot read text
   * whose second and third characters both differ from `c`.
   */
  lemma DayThenMiss(s: string, j: nat, c: char)
    requires j in {0, 1, 2, 4, 5}
    requires c == (if j == 2 then '/' else if j == 5 then '-' else '.')
    requires LowerChar(Ch(s, 1)) != c && LowerChar(Ch(s, 2)) != c
    ensures Parse(GermanFormats[j], s).None?
  {
    CompileHead(GermanFormats[j]);
    NumberThenLiteralMisses(Compile(GermanFormats[j]), s, Fields(1900, 1, 1));
  }

  /** `31.12.2024`: a dotted day-first date reads as that day. */
  lemma GermanDotted(d: Date)
    requires IsValidDate(d)
    ensures ParseGermanDate(Separated(d.day, d.month, d.year, '.')) == Some(IsoFormat(d))
  {
    var s := Separated(d.day, d.month, d.year, '.');
    assert IsDigit(s[0]) && IsDigit(s[9]);
    StripOfStripped(s);
    DmyRoundTrip(d, '.');
    GermanShapes();
    GermanFirstMatch(s, 0, d);
  }

  /** `31/12/2024`: the dotted formats miss, the slashed one reads the day. */
  lemma GermanSlashed(d: Date)
    requires IsValidDate(d)
    ensures ParseGermanDate(Separated(d.day, d.month, d.year, '/')) == Some(IsoFormat(d))
  {
    var s := Separated(d.day, d.month, d.year, '/');
    assert IsDigit(s[0]) && IsDigit(s[9]);
    StripOfStripped(s);
    assert LowerChar(Ch(s, 1)) == s[1] && IsDigit(s[1]) && LowerChar(Ch(s, 2)) == '/';
    forall j | 0 <= j < 2
      ensures Parse(GermanFormats[j], Strip(s)).None?
    {
      DayThenMiss(s, j, '.');
    }
    DmyRoundTrip(d, '/');
    GermanShapes();
    GermanFirstMatch(s, 2, d);
  }

  /** An ISO date is read by `%Y-%m-%d` and comes back unchanged. */
  lemma GermanIso(d: Date)
    requires IsValidDate(d)
    ensures ParseGermanDate(IsoFormat(d)) == Some(IsoFormat(d))
  {
    var s := IsoFormat(d);
    IsoStripped(d);
    assert LowerChar(Ch(s, 1)) == s[1] && IsDigit(s[1]) && LowerChar(Ch(s, 2)) == s[2] && IsDigit(s[2]);
    forall j | 0 <= j < 3
      ensures Parse(GermanFormats[j], Strip(s)).None?
    {
      DayThenMiss(s, j, if j == 2 then '/' else '.');
    }
    IsoRoundTrip(d);
    GermanIsoFormat(s, d);
    GermanFirstMatch(s, 3, d);
  }

  lemma GermanIsoFormat(s: string, d: Date)
    requires Parse("%Y-%m-%d", s) == Some(d)
    ensures Parse(GermanFormats[3], s) == Some(d)
  {
  }

  /** `31-12-2024`: every earlier format misses, the dashed day-first one reads it. */
  lemma GermanDashed(d: Date)
    requires IsValidDate(d)
    ensures ParseGermanDate(Separated(d.day, d.month, d.year, '-')) == Some(IsoFormat(d))
  {
    var s := Separated(d.day, d.month, d.year, '-');
    assert IsDigit(s[0]) && IsDigit(s[9]);
    StripOfStripped(s);
    assert LowerChar(Ch(s, 1)) == s[1] && IsDigit(s[1]) && LowerChar(Ch(s, 2)) == '-';
    forall j | 0 <= j < 5
      ensures Parse(GermanFormats[j], Strip(s)).None?
    {
      if j == 3 {
        NoYearAt(s, 2);
        DirectiveFirstFails(GermanFormats[3], s);
      } else {
        DayThenMiss(s, j, if j == 2 then '/' else '.');
      }
    }
    DmyRoundTrip(d, '-');
    GermanShapes();
    GermanFirstMatch(s, 5, d);
  }

  /** Reading the result again gives the same result. */
  lemma GermanIdempotent(s: string)
    requires Strip(s) != []
    ensures ParseGermanDate(ParseGermanDate(s).value) == ParseGermanDate(s)
  {
    match FirstParse(GermanFormats, Strip(s))
    case Some((_, d)) => GermanIso(d);
    case None => StripOfStripped(Strip(s));
  }

  /** No format reads the empty string. */
  lemma GermanEmptyFails(j: nat)
    requires j < |GermanFormats|
    ensures Parse(GermanFormats[j], "").None?
  {
    DirectiveFirstFails(GermanFormats[j], "");
  }

  /** Text of whitespace only is not `None` but the empty string. */
  lemma GermanBlank(s: string)
    requires s != [] && AllSpace(s)
    ensures ParseGermanDate(s) == Some("")
  {
    AllSpaceTrimStart(s);
    forall j | 0 <= j < |GermanFormats|
      ensures Parse(GermanFormats[j], Strip(s)).None?
    {
      GermanEmptyFails(j);
    }
    GermanFallback(s);
  }

  /** `31.12.2024` becomes `2024-12-31`. */
  lemma GermanExample()
    ensures ParseGermanDate("31.12.2024") == Some("2024-12-31")
  {
    GermanDotted(Date(2024, 12, 31));
    Dec31Dotted();
    Dec31Iso();
  }

  lemma Dec31Dotted()
    ensures Separated(31, 12, 2024, '.') == "31.12.2024"
  {
    PadFour(2024);
    PadTwo(12);
    PadTwo(31);
  }

  lemma Dec31Iso()
    ensures IsoFormat(Date(2024, 12, 31)) == "2024-12-31"
  {
    PadFour(2024);
    PadTwo(12);
    PadTwo(31);
  }
}
