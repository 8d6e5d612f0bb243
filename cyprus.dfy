/**
 * The text helpers of `lobbyharvest/src/scrapers/cyprus_lobbying.py`: the
 * firm-name matcher, the register's own date normaliser and the splitting
 * of a row's clients cell into client records.
 */
module Cyprus {
  import opened Common
  import opened Text
  import opened Values

  // ---------------------------------------------------------------------
  // check_firm_match
  // ---------------------------------------------------------------------

  /** Greek spellings of "FTI" that count as a match for a firm named with "fti". */
  const GreekVariations: seq<string> := ["εφ.τι.αϊ", "εφτιαϊ", "εφ.τι.αι", "εφτιαι"]

  /** The words removed from the firm name before the last attempt, in this order. */
  const FirmSuffixes: seq<string> := ["consulting", "ltd", "limited", "plc", "inc", "corporation", "corp"]

  /**
   * `firm_base` after the loop has processed `suffixes`: each one removed
   * wherever it occurs, then the result stripped.
   */
  function FirmBase(firm: string, suffixes: seq<string>): string {
    if suffixes == [] then firm
    else Strip(RemoveAll(FirmBase(firm, suffixes[..|suffixes| - 1]), suffixes[|suffixes| - 1]))
  }

  /** The base of a firm name: lower-cased, every listed suffix word removed. */
  function BaseName(firmName: string): string {
    FirmBase(Lower(firmName), FirmSuffixes)
  }

  /** Some Greek spelling of "FTI" occurs in `text`. */
  predicate HasGreekFti(text: string) {
    exists i | 0 <= i < |GreekVariations| :: Contains(text, GreekVariations[i])
  }

  /** What `check_firm_match(text, firm_name)` returns. */
  predicate FirmMatches(text: string, firmName: string) {
    var t, f := Lower(text), Lower(firmName);
    var base := BaseName(firmName);
    || Contains(t, f)
    || (Contains(f, "fti") && HasGreekFti(t))
    || (base != [] && Contains(t, base))
  }

  /** Lines 128-131: the loop over the Greek spellings. */
  method FindGreekFti(textLower: string) returns (found: bool)
    ensures found == HasGreekFti(textLower)
  {
    for i := 0 to |GreekVariations|
      invariant forall j | 0 <= j < i :: !Contains(textLower, GreekVariations[j])
    {
      if Contains(textLower, GreekVariations[i]) {
        return true;
      }
    }
    return false;
  }

  /** Lines 135-137: the loop that rebinds `firm_base` once per suffix word. */
  method RemoveSuffixes(firmLower: string) returns (firmBase: string)
    ensures firmBase == FirmBase(firmLower, FirmSuffixes)
  {
    firmBase := firmLower;
    for i := 0 to |FirmSuffixes|
      invariant firmBase == FirmBase(firmLower, FirmSuffixes[..i])
    {
      assert FirmSuffixes[..i + 1][..i] == FirmSuffixes[..i];
      firmBase := Strip(RemoveAll(firmBase, FirmSuffixes[i]));
    }
    assert FirmSuffixes[..|FirmSuffixes|] == FirmSuffixes;
  }

  /** `check_firm_match(text, firm_name)`. */
  method CheckFirmMatch(text: string, firmName: string) returns (matched: bool)
    ensures matched == FirmMatches(text, firmName)
  {
    var textLower := Lower(text);
    var firmLower := Lower(firmName);
    if Contains(textLower, firmLower) {
      return true;
    }
    if Contains(firmLower, "fti") {
      var found := FindGreekFti(textLower);
      if found {
        return true;
      }
    }
    var firmBase := RemoveSuffixes(firmLower);
    if firmBase != [] && Contains(textLower, firmBase) {
      return true;
    }
    return false;
  }

  /** A firm name found (case-insensitively) in the text always matches; the empty name matches everything. */
  lemma DirectMatch(text: string, firmName: string)
    ensures Contains(Lower(text), Lower(firmName)) ==> FirmMatches(text, firmName)
    ensures FirmMatches(text, "")
  {
    ContainsEmpty(Lower(text));
  }

  /** A firm named with "fti" matches any text with a Greek spelling of it. */
  lemma GreekFtiMatch(text: string, firmName: string, i: nat)
    requires Contains(Lower(firmName), "fti")
    requires i < |GreekVariations| && Contains(Lower(text), GreekVariations[i])
    ensures FirmMatches(text, firmName)
  {
  }

  /**
   * Failing the first two tests, a firm matches exactly when the name
   * with every listed suffix word removed is non-empty and occurs in the
   * text; otherwise the answer is False.
   */
  lemma BaseMatch(text: string, firmName: string)
    requires !Contains(Lower(text), Lower(firmName))
    requires !(Contains(Lower(firmName), "fti") && HasGreekFti(Lower(text)))
    ensures FirmMatches(text, firmName) <==> BaseName(firmName) != [] && Contains(Lower(text), BaseName(firmName))
  {
  }

  /** A stripped name containing none of the suffix words is its own base. */
  lemma {:induction false} FirmBaseUnchanged(firm: string, suffixes: seq<string>)
    requires forall i | 0 <= i < |suffixes| :: !Contains(firm, suffixes[i])
    requires Strip(firm) == firm
    ensures FirmBase(firm, suffixes) == firm
  {
    if suffixes != [] {
      var init := suffixes[..|suffixes| - 1];
      FirmBaseUnchanged(firm, init);
      RemoveAllAbsent(firm, suffixes[|suffixes| - 1]);
    }
  }

  // ---------------------------------------------------------------------
  // normalize_date (the register's own, day-first)
  // ---------------------------------------------------------------------

  /** `'.'` and `'-'` replaced by `'/'`. */
  function Slashes(s: string): (r: string)
    ensures |r| == |s| && '.' !in r && '-' !in r
  {
    ReplaceChar(ReplaceChar(s, '.', '/'), '-', '/')
  }

  /** `f"{year}-{month.zfill(2)}-{day.zfill(2)}"`. */
  function Render(year: string, month: string, day: string): string {
    year + "-" + ZFill(month, 2) + "-" + ZFill(day, 2)
  }

  /** A two-character year: below 50 is 20xx, anything else 19xx; `None` where `int()` raises. */
  function CenturyYear(year: string): Option<string>
    requires |year| == 2
  {
    match PyInt(year)
    case None => None
    case Some(n) => Some(if n < 50 then "20" + year else "19" + year)
  }

  /** `normalize_date(date_str)` of the Cyprus scraper. */
  function NormalizeDate(s: string): (r: string)
    ensures s == [] <==> r == []
  {
    if s == [] then ""
    else
      var d := Slashes(s);
      var parts := Split(d, '/');
      if |parts| != 3 then d
      else if |parts[0]| <= 2 then
        var day, month, year := parts[0], parts[1], parts[2];
        if |year| == 2 then
          match CenturyYear(year)
          case None => d
          case Some(y) => Render(y, month, day)
        else Render(year, month, day)
      else Render(parts[0], parts[1], parts[2])
  }

  predicate NoSeparator(s: string) {
    '.' !in s && '-' !in s && '/' !in s
  }

  predicate IsSeparator(c: char) {
    c == '.' || c == '-' || c == '/'
  }

  /** Any mix of the three separators reads as slashes. */
  lemma SlashesOfParts(a: string, b: string, c: string, s1: char, s2: char)
    requires NoSeparator(a) && NoSeparator(b) && NoSeparator(c) && IsSeparator(s1) && IsSeparator(s2)
    ensures Slashes(a + [s1] + b + [s2] + c) == a + "/" + b + "/" + c
    ensures Split(a + "/" + b + "/" + c, '/') == [a, b, c]
  {
    SlashesJoin(a, b, c, s1, s2);
    SplitThree(a, b, c);
  }

  lemma SlashesJoin(a: string, b: string, c: string, s1: char, s2: char)
    requires NoSeparator(a) && NoSeparator(b) && NoSeparator(c) && IsSeparator(s1) && IsSeparator(s2)
    ensures Slashes(a + [s1] + b + [s2] + c) == a + "/" + b + "/" + c
  {
    var s := a + [s1] + b + [s2] + c;
    var t := a + "/" + b + "/" + c;
    forall i | 0 <= i < |s| ensures Slashes(s)[i] == t[i] {
      if i < |a| {
        assert s[i] == a[i] && t[i] == a[i];
      } else if i == |a| {
        assert s[i] == s1 && t[i] == '/';
      } else if i < |a| + 1 + |b| {
        assert s[i] == b[i - |a| - 1] && t[i] == b[i - |a| - 1];
      } else if i == |a| + 1 + |b| {
        assert s[i] == s2 && t[i] == '/';
      } else {
        assert s[i] == c[i - |a| - 2 - |b|] && t[i] == c[i - |a| - 2 - |b|];
      }
    }
  }

  lemma SplitThree(a: string, b: string, c: string)
    requires NoSeparator(a) && NoSeparator(b) && NoSeparator(c)
    ensures Split(a + "/" + b + "/" + c, '/') == [a, b, c]
  {
    assert a + "/" + b + "/" + c == a + ['/'] + (b + ['/'] + c);
    SplitCons(a, b + ['/'] + c, '/');
    SplitOneSeparator(b, c, '/');
  }

  /**
   * Day-first: a first part of at most two characters is the day, and
   * month and day come out zero-padded after the year.
   */
  lemma DayFirst(day: string, month: string, year: string, s1: char, s2: char)
    requires NoSeparator(day) && NoSeparator(month) && NoSeparator(year) && IsSeparator(s1) && IsSeparator(s2)
    requires |day| <= 2 && |year| != 2
    ensures NormalizeDate(day + [s1] + month + [s2] + year) == Render(year, month, day)
  {
    SlashesOfParts(day, month, year, s1, s2);
  }

  /** A two-digit year below 50 is in the 2000s, any other two-digit year in the 1900s. */
  lemma TwoDigitYear(day: string, month: string, year: string, s1: char, s2: char)
    requires NoSeparator(day) && NoSeparator(month) && IsSeparator(s1) && IsSeparator(s2)
    requires |day| <= 2 && |year| == 2 && AllDigits(year)
    ensures NormalizeDate(day + [s1] + month + [s2] + year) ==
      Render(if DigitsValue(year) < 50 then "20" + year else "19" + year, month, day)
  {
    SlashesOfParts(day, month, year, s1, s2);
    PyIntOfDigits(year);
  }

  /** A first part longer than two characters is the year: YYYY/MM/DD. */
  lemma YearFirst(year: string, month: string, day: string, s1: char, s2: char)
    requires NoSeparator(year) && NoSeparator(month) && NoSeparator(day) && IsSeparator(s1) && IsSeparator(s2)
    requires |year| > 2
    ensures NormalizeDate(year + [s1] + month + [s2] + day) == Render(year, month, day)
  {
    SlashesOfParts(year, month, day, s1, s2);
  }

  /**
   * Any other shape gives the separator-replaced text, not the original:
   * fewer or more than three parts, or a two-character year `int()`
   * rejects.
   */
  lemma Fallback(s: string)
    requires s != []
    ensures |Split(Slashes(s), '/')| != 3 ==> NormalizeDate(s) == Slashes(s)
    ensures var parts := Split(Slashes(s), '/');
      |parts| == 3 && |parts[0]| <= 2 && |parts[2]| == 2 && PyInt(parts[2]).None? ==>
      NormalizeDate(s) == Slashes(s)
  {
  }

  // ---------------------------------------------------------------------
  // The clients cell (lines 82-97)
  // ---------------------------------------------------------------------

  /** Length of the leading run of digits of `s`. */
  function DigitRun(s: string): (n: nat)
    ensures n <= |s| && AllDigits(s[..n]) && (n < |s| ==> !IsDigit(s[n]))
  {
    if s != [] && IsDigit(s[0]) then
      var n := 1 + DigitRun(s[1..]);
      assert s[..n] == [s[0]] + s[1..][..n - 1];
      n
    else 0
  }

  /** Length of the leading whitespace of `s`. */
  function SpaceRun(s: string): (n: nat)
    ensures n <= |s| && AllSpace(s[..n]) && (n < |s| ==> !IsSpace(s[n]))
  {
    if s != [] && IsSpace(s[0]) then
      var n := 1 + SpaceRun(s[1..]);
      assert s[..n] == [s[0]] + s[1..][..n - 1];
      n
    else 0
  }

  /** `re.sub(r'^\d+\.\s*', '', line)`: a leading "N." and the whitespace after it removed. */
  function DropNumbering(line: string): string {
    var n := DigitRun(line);
    if n > 0 && n < |line| && line[n] == '.' then
      var rest := line[n + 1..];
      rest[SpaceRun(rest)..]
    else line
  }

  /** The name a clients-cell line stands for. */
  function ClientName(line: string): string {
    Strip(DropNumbering(line))
  }

  /** A line is kept when its name has more than two characters. */
  predicate KeptName(name: string) {
    |name| > 2
  }

  /** The record the scraper builds for one kept client line of a register row. */
  function ClientRecord(firmName: string, row: seq<string>, name: string): (r: Record)
    ensures r.Keys == {"firm_name", "firm_registration_number", "client_name",
                       "client_registration_number", "start_date", "end_date"}
  {
    map[
      "firm_name" := Str(firmName),
      "firm_registration_number" := Str(if |row| > 4 then row[4] else ""),
      "client_name" := Str(name),
      "client_registration_number" := Str(""),
      "start_date" := Str(if |row| > 3 then NormalizeDate(row[3]) else ""),
      "end_date" := Str("")
    ]
  }

  /** The cleaned names of the lines that are kept, in line order. */
  function KeptNames(lines: seq<string>): (ns: seq<string>)
    ensures |ns| <= |lines|
  {
    if lines == [] then []
    else
      var name := ClientName(lines[|lines| - 1]);
      KeptNames(lines[..|lines| - 1]) + (if KeptName(name) then [name] else [])
  }

  /** One record per name, in the order of the names. */
  function RecordsFor(firmName: string, row: seq<string>, names: seq<string>): (rs: seq<Record>)
    ensures |rs| == |names|
  {
    if names == [] then []
    else RecordsFor(firmName, row, names[..|names| - 1]) + [ClientRecord(firmName, row, names[|names| - 1])]
  }

  /** The records built from `lines`, in line order. */
  function ClientRecords(firmName: string, row: seq<string>, lines: seq<string>): seq<Record> {
    RecordsFor(firmName, row, KeptNames(lines))
  }

  /** One more line adds its record exactly when its name is kept. */
  lemma ClientRecordsStep(firmName: string, row: seq<string>, lines: seq<string>, i: nat)
    requires i < |lines|
    ensures var name := ClientName(lines[i]);
      ClientRecords(firmName, row, lines[..i + 1]) ==
        ClientRecords(firmName, row, lines[..i]) + (if KeptName(name) then [ClientRecord(firmName, row, name)] else [])
  {
    assert lines[..i + 1][..i] == lines[..i];
    var ns := KeptNames(lines[..i]);
    var name := ClientName(lines[i]);
    if KeptName(name) {
      assert (ns + [name])[..|ns|] == ns;
    } else {
      assert ns + [] == ns;
    }
  }

  /** Lines 80-97: the records for the row's clients cell. */
  method SplitClients(firmName: string, row: seq<string>, clientsText: string) returns (results: seq<Record>)
    ensures results == ClientRecords(firmName, row, Split(clientsText, '\n'))
  {
    results := [];
    var clientLines := Split(clientsText, '\n');
    if clientsText == [] {
      assert clientLines == [""];
      assert ClientRecords(firmName, row, clientLines[..0]) == [];
      return;
    }
    for i := 0 to |clientLines|
      invariant results == ClientRecords(firmName, row, clientLines[..i])
    {
      ClientRecordsStep(firmName, row, clientLines, i);
      var clientName := ClientName(clientLines[i]);
      if clientName != [] && |clientName| > 2 {
        results := results + [ClientRecord(firmName, row, clientName)];
      }
    }
    assert clientLines[..|clientLines|] == clientLines;
  }

  /** The `j`-th record is the one for the `j`-th name. */
  lemma {:induction false} RecordsForAt(firmName: string, row: seq<string>, names: seq<string>, j: nat)
    requires j < |names|
    ensures RecordsFor(firmName, row, names)[j] == ClientRecord(firmName, row, names[j])
    decreases |names|
  {
    var init := names[..|names| - 1];
    if j < |init| {
      RecordsForAt(firmName, row, init, j);
      assert names[j] == init[j];
    }
  }

  /** Each kept name is the long enough cleaned name of some line. */
  lemma {:induction false} KeptNamesFromLines(lines: seq<string>)
    ensures forall n | n in KeptNames(lines) ::
      KeptName(n) && exists i | 0 <= i < |lines| :: n == ClientName(lines[i])
    decreases |lines|
  {
    if lines != [] {
      var init := lines[..|lines| - 1];
      KeptNamesFromLines(init);
      forall n | n in KeptNames(lines)
        ensures KeptName(n) && exists i | 0 <= i < |lines| :: n == ClientName(lines[i])
      {
        if n in KeptNames(init) {
          var i :| 0 <= i < |init| && n == ClientName(init[i]);
          assert lines[i] == init[i];
        } else {
          assert n == ClientName(lines[|lines| - 1]);
        }
      }
    }
  }

  /** Every line whose cleaned name is long enough contributes that name. */
  lemma {:induction false} KeptLinesGiveNames(lines: seq<string>, i: nat)
    requires i < |lines| && KeptName(ClientName(lines[i]))
    ensures ClientName(lines[i]) in KeptNames(lines)
    decreases |lines|
  {
    var init := lines[..|lines| - 1];
    var last := ClientName(lines[|lines| - 1]);
    var tail := if KeptName(last) then [last] else [];
    assert KeptNames(lines) == KeptNames(init) + tail;
    if i < |init| {
      assert init[i] == lines[i];
      KeptLinesGiveNames(init, i);
    } else {
      assert i == |lines| - 1;
      assert last == ClientName(lines[i]);
    }
  }

  /**
   * Every record comes from a line whose cleaned name is longer than two
   * characters, and carries the firm, the row's registration number, the
   * normalised registration date and an empty end date.
   */
  lemma ClientRecordsFromLines(firmName: string, row: seq<string>, lines: seq<string>)
    ensures forall r | r in ClientRecords(firmName, row, lines) ::
      exists n | n in KeptNames(lines) :: r == ClientRecord(firmName, row, n)
    ensures forall n | n in KeptNames(lines) ::
      KeptName(n) && exists i | 0 <= i < |lines| :: n == ClientName(lines[i])
  {
    var ns := KeptNames(lines);
    KeptNamesFromLines(lines);
    forall r | r in ClientRecords(firmName, row, lines)
      ensures exists n | n in ns :: r == ClientRecord(firmName, row, n)
    {
      var j :| 0 <= j < |ns| && RecordsFor(firmName, row, ns)[j] == r;
      RecordsForAt(firmName, row, ns, j);
    }
  }

  /** Every line with a long enough name gives a record. */
  lemma KeptLinesGiveRecords(firmName: string, row: seq<string>, lines: seq<string>, i: nat)
    requires i < |lines| && KeptName(ClientName(lines[i]))
    ensures ClientRecord(firmName, row, ClientName(lines[i])) in ClientRecords(firmName, row, lines)
  {
    var ns := KeptNames(lines);
    KeptLinesGiveNames(lines, i);
    var j :| 0 <= j < |ns| && ns[j] == ClientName(lines[i]);
    RecordsForAt(firmName, row, ns, j);
  }

  /** A leading "N." and the spaces after it do not reach the client name. */
  lemma NumberingDropped(digits: string, gap: string, name: string)
    requires digits != [] && AllDigits(digits) && AllSpace(gap)
    requires name == [] || !IsSpace(name[0])
    ensures DropNumbering(digits + "." + gap + name) == name
  {
    var rest := gap + name;
    assert digits + "." + gap + name == digits + ("." + rest);
    DottedDrop(digits, rest);
    SpaceRunOf(gap, name);
    assert rest[|gap|..] == name;
  }

  /** After "N." only the leading whitespace of the rest is dropped. */
  lemma DottedDrop(digits: string, rest: string)
    requires digits != [] && AllDigits(digits)
    ensures DropNumbering(digits + ("." + rest)) == rest[SpaceRun(rest)..]
  {
    var line := digits + ("." + rest);
    DigitRunOf(digits, "." + rest);
    assert line[|digits|] == '.';
    assert line[|digits| + 1..] == rest;
  }

  lemma {:induction false} DigitRunOf(digits: string, tail: string)
    requires AllDigits(digits) && (tail == [] || !IsDigit(tail[0]))
    ensures DigitRun(digits + tail) == |digits|
  {
    if digits != [] {
      assert (digits + tail)[1..] == digits[1..] + tail;
      DigitRunOf(digits[1..], tail);
    } else {
      assert digits + tail == tail;
    }
  }

  lemma {:induction false} SpaceRunOf(gap: string, tail: string)
    requires AllSpace(gap) && (tail == [] || !IsSpace(tail[0]))
    ensures SpaceRun(gap + tail) == |gap|
  {
    if gap != [] {
      assert (gap + tail)[1..] == gap[1..] + tail;
      SpaceRunOf(gap[1..], tail);
    } else {
      assert gap + tail == tail;
    }
  }
}
