/**
 * The text handling of the French HATVP register scraper,
 * `lobbyharvest/src/scrapers/french_hatvp.py`: the record a client table row
 * gives, with its date cell split into a start and an end, and the scanner
 * that reads client names out of the lines of a page section.
 */
module FrenchHatvp {
  import opened Common
  import opened Text
  import opened Values
  import opened Calendar

  /** `any(word in text.lower() for word in words)`. */
  predicate MentionsAny(text: string, words: seq<string>) {
    exists k | 0 <= k < |words| :: Contains(Lower(text), words[k])
  }

  // ---------------------------------------------------------------------
  // Table rows (lines 73-98)
  // ---------------------------------------------------------------------

  /** A row is looked at when its text mentions one of these. */
  const RowWords: seq<string> := ["mandant", "client", "représente"]

  /**
   * The start and end dates a date cell gives. A cell with a `/` or a `-`
   * that splits on `-` into exactly two parts gives both halves stripped;
   * any other cell with a `/` or a `-` is all start date; a cell with
   * neither gives no dates.
   */
  function DateFields(dateText: string): (string, string) {
    if '/' in dateText || '-' in dateText then
      var dates := Split(dateText, '-');
      if |dates| == 2 then (Strip(dates[0]), Strip(dates[1])) else (Strip(dateText), "")
    else ("", "")
  }

  /** `01/01/2020 - 31/12/2021`: one dash splits the cell into a start and an end. */
  lemma DateRange(a: string, b: string)
    requires '-' !in a && '-' !in b
    ensures DateFields(a + "-" + b) == (Strip(a), Strip(b))
  {
    assert (a + "-" + b)[|a|] == '-';
    assert a + "-" + b == a + ['-'] + b;
    SplitOneSeparator(a, b, '-');
  }

  /** A slashed cell without a dash is all start date. */
  lemma SlashedOnly(t: string)
    requires '/' in t && '-' !in t
    ensures DateFields(t) == (Strip(t), "")
  {
    SplitNoSeparator(t, '-');
  }

  /** A cell with neither a slash nor a dash leaves both dates empty. */
  lemma NoSeparatorNoDates(t: string)
    requires '/' !in t && '-' !in t
    ensures DateFields(t) == ("", "")
  {
  }

  /** Two dashes or more: no split, the whole cell is the start date. */
  lemma ManyDashes(t: string)
    requires Count(t, '-') >= 2
    ensures DateFields(t) == (Strip(t), "")
  {
    CountIn(t, '-');
  }

  /** A character counted in `s` occurs in it. */
  lemma {:induction false} CountIn(s: string, c: char)
    requires Count(s, c) > 0
    ensures c in s
  {
    if s[0] != c {
      CountIn(s[1..], c);
    }
  }

  /** Occurrences add up over a concatenation. */
  lemma {:induction false} CountAppend(a: string, b: string, c: char)
    ensures Count(a + b, c) == Count(a, c) + Count(b, c)
  {
    if a == [] {
      assert a + b == b;
    } else {
      assert (a + b)[0] == a[0] && (a + b)[1..] == a[1..] + b;
      CountAppend(a[1..], b, c);
    }
  }

  /** A string without `c` counts none. */
  lemma {:induction false} CountNone(s: string, c: char)
    requires c !in s
    ensures Count(s, c) == 0
  {
    if s != [] {
      CountNone(s[1..], c);
    }
  }

  /**
   * A range of ISO dates, `2020-01-01 - 2021-12-31`, has five dashes, so
   * it is never split: the whole cell lands in the start date.
   */
  lemma IsoRangeNotSplit(a: Date, b: Date)
    requires IsValidDate(a) && IsValidDate(b)
    ensures var t := IsoFormat(a) + " - " + IsoFormat(b);
      DateFields(t) == (Strip(t), "")
  {
    IsoDashes(a);
    IsoDashes(b);
    var t := IsoFormat(a) + " - " + IsoFormat(b);
    CountAppend(IsoFormat(a) + " - ", IsoFormat(b), '-');
    CountAppend(IsoFormat(a), " - ", '-');
    assert Count(" - ", '-') == 1;
    ManyDashes(t);
  }

  /** An ISO date has its two dashes. */
  lemma IsoDashes(d: Date)
    requires IsValidDate(d)
    ensures Count(IsoFormat(d), '-') == 2
  {
    var y, m, dd := Pad(d.year, 4), Pad(d.month, 2), Pad(d.day, 2);
    DigitsNoDash(y);
    DigitsNoDash(m);
    DigitsNoDash(dd);
    CountNone(y, '-');
    CountNone(m, '-');
    CountNone(dd, '-');
    CountAppend(y + "-" + m + "-", dd, '-');
    CountAppend(y + "-" + m, "-", '-');
    CountAppend(y + "-", m, '-');
    CountAppend(y, "-", '-');
  }

  lemma DigitsNoDash(s: string)
    requires AllDigits(s)
    ensures '-' !in s
  {
    assert forall i | 0 <= i < |s| :: s[i] != '-';
  }

  /**
   * The record a table row gives, `None` where the row is passed over:
   * its text names no client keyword, it has no cells, or its first cell
   * is blank. The dates come from the second cell, when there is one.
   */
  method RowRecord(firmName: string, rowText: string, cells: seq<string>) returns (kept: Option<ClientRow>)
    ensures kept.Some? <==> MentionsAny(rowText, RowWords) && cells != [] && Strip(cells[0]) != []
    ensures kept.Some? ==> kept.value.firmName == firmName && kept.value.clientName == Strip(cells[0])
    ensures kept.Some? ==> kept.value.firmRegistrationNumber == "" && kept.value.clientRegistrationNumber == ""
    ensures kept.Some? ==>
      (kept.value.startDate, kept.value.endDate) == if |cells| > 1 then DateFields(cells[1]) else ("", "")
  {
    kept := None;
    if MentionsAny(rowText, RowWords) {
      if cells != [] {
        var record := BlankRow(firmName).(clientName := Strip(cells[0]));
        if |cells| > 1 {
          var dateText := cells[1];
          if '/' in dateText || '-' in dateText {
            var dates := Split(dateText, '-');
            if |dates| == 2 {
              record := record.(startDate := Strip(dates[0]));
              record := record.(endDate := Strip(dates[1]));
            } else {
              record := record.(startDate := Strip(dateText));
            }
          }
        }
        if record.clientName != "" {
          kept := Some(record);
        }
      }
    }
  }

  // ---------------------------------------------------------------------
  // The line scanner (lines 106-125)
  // ---------------------------------------------------------------------

  /** A line mentioning one of these opens the client section. */
  const OpenerWords: seq<string> := ["mandant", "client"]

  /** A line mentioning one of these is contact data, not a client. */
  const ContactWords: seq<string> := ["contact", "adresse", "téléphone"]

  /** A line mentioning one of these may close the client section. */
  const SectionWords: seq<string> := ["activité", "secteur", "domaine"]

  /** What the scanner makes of a stripped line. */
  datatype LineKind =
    | Opener      // turns the section on
    | Candidate   // a client name while the section is on
    | Closer      // turns the section off
    | Plain       // changes nothing

  /** The `if`/`elif`/`elif` chain, read off the line alone. */
  function KindOf(line: string): LineKind {
    if MentionsAny(line, OpenerWords) then Opener
    else if line != [] && !MentionsAny(line, ContactWords) then Candidate
    else if line == [] || MentionsAny(line, SectionWords) then Closer
    else Plain
  }

  /** The records emitted so far and `in_client_section`. */
  datatype ScanState = ScanState(results: seq<ClientRow>, inSection: bool)

  /**
   * One pass of `for line in lines:`: a candidate line outside the
   * section falls through to the last test, which it can only pass by
   * mentioning a section word, and then the flag stays off.
   */
  function ScanLine(firmName: string, st: ScanState, line: string, k: LineKind): ScanState {
    match k
    case Opener => st.(inSection := true)
    case Candidate =>
      if st.inSection then st.(results := st.results + [BlankRow(firmName).(clientName := line)]) else st
    case Closer => st.(inSection := false)
    case Plain => st
  }

  /** The state once the loop has seen the stripped `lines`, classified by `kind`. */
  function ScanLines(firmName: string, lines: seq<string>, kind: string -> LineKind): ScanState {
    if lines == [] then ScanState([], false)
    else
      var line := lines[|lines| - 1];
      ScanLine(firmName, ScanLines(firmName, lines[..|lines| - 1], kind), line, kind(line))
  }

  lemma ScanLinesStep(firmName: string, lines: seq<string>, k: nat, kind: string -> LineKind)
    requires k < |lines|
    ensures ScanLines(firmName, lines[..k + 1], kind) ==
      ScanLine(firmName, ScanLines(firmName, lines[..k], kind), lines[k], kind(lines[k]))
  {
    assert lines[..k + 1][..k] == lines[..k];
  }

  /** `lines = text.split('\n')`, the scan of those lines, appended to `results`. */
  method ScanSection(firmName: string, text: string, results: seq<ClientRow>) returns (results': seq<ClientRow>)
    ensures results' == results + ScanLines(firmName, StripAll(Split(text, '\n')), KindOf).results
  {
    var lines := Split(text, '\n');
    ghost var stripped := StripAll(lines);
    var found: seq<ClientRow> := [];
    var inClientSection := false;
    for k := 0 to |lines|
      invariant ScanLines(firmName, stripped[..k], KindOf) == ScanState(found, inClientSection)
    {
      ScanLinesStep(firmName, stripped, k, KindOf);
      var line := Strip(lines[k]);
      found, inClientSection := ScanOneLine(firmName, found, inClientSection, line);
    }
    assert stripped[..|lines|] == stripped;
    results' := results + found;
  }

  /** The body of `for line in lines:` after `line = line.strip()`. */
  method ScanOneLine(firmName: string, found: seq<ClientRow>, inClientSection: bool, line: string)
    returns (found': seq<ClientRow>, inClientSection': bool)
    ensures ScanState(found', inClientSection') == ScanLine(firmName, ScanState(found, inClientSection), line, KindOf(line))
  {
    found', inClientSection' := found, inClientSection;
    if MentionsAny(line, OpenerWords) {
      inClientSection' := true;
    } else if inClientSection && line != [] && !MentionsAny(line, ContactWords) {
      found' := found + [BlankRow(firmName).(clientName := line)];
    } else if line == [] || MentionsAny(line, SectionWords) {
      inClientSection' := false;
    }
  }

  // ---------------------------------------------------------------------
  // What the scanner emits, stated without its flag
  // ---------------------------------------------------------------------

  /**
   * Line `k` lies inside a client section: some earlier line opened one
   * and no line between them closed it.
   */
  predicate InSection(lines: seq<string>, k: nat, kind: string -> LineKind)
    requires k <= |lines|
  {
    exists i | 0 <= i < k :: kind(lines[i]) == Opener && forall j | i < j < k :: kind(lines[j]) != Closer
  }

  /** The candidate lines that lie inside a client section, in line order. */
  function Selected(lines: seq<string>, kind: string -> LineKind): seq<string> {
    if lines == [] then []
    else
      var n := |lines| - 1;
      Selected(lines[..n], kind) + (if kind(lines[n]) == Candidate && InSection(lines, n, kind) then [lines[n]] else [])
  }

  /** The record of a client line: its name, every other field empty. */
  function NameRows(firmName: string, names: seq<string>): (rs: seq<ClientRow>)
    ensures |rs| == |names|
    ensures forall i | 0 <= i < |names| :: rs[i] == BlankRow(firmName).(clientName := names[i])
  {
    if names == [] then [] else NameRows(firmName, names[..|names| - 1]) + [BlankRow(firmName).(clientName := names[|names| - 1])]
  }

  /** Whether line `k` lies in a section depends only on the lines before it. */
  lemma InSectionPrefix(lines: seq<string>, n: nat, k: nat, kind: string -> LineKind)
    requires k <= n <= |lines|
    ensures InSection(lines[..n], k, kind) <==> InSection(lines, k, kind)
  {
    if InSection(lines, k, kind) {
      var i :| 0 <= i < k && kind(lines[i]) == Opener && forall j | i < j < k :: kind(lines[j]) != Closer;
      assert lines[..n][i] == lines[i];
      assert forall j | i < j < k :: kind(lines[..n][j]) != Closer by {
        forall j | i < j < k ensures kind(lines[..n][j]) != Closer {
          assert lines[..n][j] == lines[j];
        }
      }
    }
    if InSection(lines[..n], k, kind) {
      var i :| 0 <= i < k && kind(lines[..n][i]) == Opener && forall j | i < j < k :: kind(lines[..n][j]) != Closer;
      assert lines[..n][i] == lines[i];
      assert forall j | i < j < k :: kind(lines[j]) != Closer by {
        forall j | i < j < k ensures kind(lines[j]) != Closer {
          assert lines[..n][j] == lines[j];
        }
      }
    }
  }

  /** The section after line `k`: an opener opens it, a closer closes it, anything else keeps it. */
  lemma InSectionStep(lines: seq<string>, k: nat, kind: string -> LineKind)
    requires k < |lines|
    ensures InSection(lines, k + 1, kind) <==>
      kind(lines[k]) == Opener || (kind(lines[k]) != Closer && InSection(lines, k, kind))
  {
    if kind(lines[k]) != Closer && InSection(lines, k, kind) {
      var i :| 0 <= i < k && kind(lines[i]) == Opener && forall j | i < j < k :: kind(lines[j]) != Closer;
      assert forall j | i < j < k + 1 :: kind(lines[j]) != Closer;
    }
    if kind(lines[k]) != Opener && InSection(lines, k + 1, kind) {
      var i :| 0 <= i < k + 1 && kind(lines[i]) == Opener && forall j | i < j < k + 1 :: kind(lines[j]) != Closer;
      assert i < k;
    }
  }

  /**
   * The scanner emits exactly the candidate lines inside a client
   * section, in line order, and its flag says whether the next line is
   * inside one.
   */
  lemma {:induction false} ScanIsSelected(firmName: string, lines: seq<string>, kind: string -> LineKind)
    ensures ScanLines(firmName, lines, kind).inSection == InSection(lines, |lines|, kind)
    ensures ScanLines(firmName, lines, kind).results == NameRows(firmName, Selected(lines, kind))
  {
    if lines != [] {
      var n := |lines| - 1;
      var init := lines[..n];
      ScanIsSelected(firmName, init, kind);
      InSectionPrefix(lines, n, n, kind);
      InSectionStep(lines, n, kind);
      var names := Selected(init, kind);
      if kind(lines[n]) == Candidate && InSection(lines, n, kind) {
        assert (names + [lines[n]])[..|names|] == names;
      }
    }
  }

  /** Each emitted name is a candidate line with an opener before it and no closer in between. */
  lemma {:induction false} SelectedInSection(lines: seq<string>, kind: string -> LineKind, m: nat)
    requires m < |Selected(lines, kind)|
    ensures exists k | 0 <= k < |lines| :: lines[k] == Selected(lines, kind)[m] && kind(lines[k]) == Candidate && InSection(lines, k, kind)
  {
    var n := |lines| - 1;
    var init := lines[..n];
    if m < |Selected(init, kind)| {
      SelectedInSection(init, kind, m);
      var k :| 0 <= k < |init| && init[k] == Selected(init, kind)[m] && kind(init[k]) == Candidate && InSection(init, k, kind);
      InSectionPrefix(lines, n, k, kind);
      assert lines[k] == init[k];
    } else {
      assert lines[n] == Selected(lines, kind)[m];
    }
  }

  /** No line mentions "mandant" or "client": nothing is emitted. */
  lemma {:induction false} NoOpenerNoRecords(firmName: string, lines: seq<string>, kind: string -> LineKind)
    requires forall k | 0 <= k < |lines| :: kind(lines[k]) != Opener
    ensures ScanLines(firmName, lines, kind).results == []
  {
    ScanIsSelected(firmName, lines, kind);
    NoOpenerNoneSelected(lines, kind);
  }

  lemma {:induction false} NoOpenerNoneSelected(lines: seq<string>, kind: string -> LineKind)
    requires forall k | 0 <= k < |lines| :: kind(lines[k]) != Opener
    ensures Selected(lines, kind) == []
  {
    if lines != [] {
      var n := |lines| - 1;
      NoOpenerNoneSelected(lines[..n], kind);
      assert !InSection(lines, n, kind);
    }
  }
}
