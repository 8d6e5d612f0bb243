/**
 * The text handling of the UK Office of the Registrar of Consultant
 * Lobbyists scraper, `lobbyharvest/src/scrapers/uk_orcl.py`: the mapping of
 * a client table's row onto a record by its column headers, and the
 * scanner that reads client records out of the lines of a page section.
 */
module UkOrcl {
  import opened Common
  import opened Text
  import opened Values

  // ---------------------------------------------------------------------
  // Table rows (lines 89-111)
  // ---------------------------------------------------------------------

  /** The field a column feeds, decided by its header. */
  datatype Column = ClientColumn | StartColumn | EndColumn | OtherColumn

  /**
   * The `if`/`elif` chain on `header.lower()`: "client" first, then
   * "start" or "from", then "end" or "to".
   */
  function ColumnOf(header: string): Column {
    var h := Lower(header);
    if Contains(h, "client") then ClientColumn
    else if Contains(h, "start") || Contains(h, "from") then StartColumn
    else if Contains(h, "end") || Contains(h, "to") then EndColumn
    else OtherColumn
  }

  /** The last of the first `n` headers that feeds column `c`. */
  function LastOf(headers: seq<string>, n: nat, c: Column): (r: Option<nat>)
    requires n <= |headers|
    ensures r.Some? ==> r.value < n && ColumnOf(headers[r.value]) == c
    ensures r.Some? ==> forall j | r.value < j < n :: ColumnOf(headers[j]) != c
    ensures r.None? ==> forall j | 0 <= j < n :: ColumnOf(headers[j]) != c
  {
    if n == 0 then None
    else if ColumnOf(headers[n - 1]) == c then Some(n - 1)
    else LastOf(headers, n - 1, c)
  }

  /** The stripped cell under the chosen header, or `''` when there is none. */
  function CellAt(cells: seq<string>, o: Option<nat>): string
    requires o.Some? ==> o.value < |cells|
  {
    if o.Some? then Strip(cells[o.value]) else ""
  }

  /**
   * The record a row gives once the first `n` headers have been looked at:
   * each field holds the stripped cell of the LAST header that feeds it,
   * since later columns overwrite earlier ones.
   */
  function MappedRow(firmName: string, headers: seq<string>, cells: seq<string>, n: nat): ClientRow
    requires n <= |headers|
  {
    var m := if n < |cells| then n else |cells|;
    BlankRow(firmName).(
      clientName := CellAt(cells, LastOf(headers, m, ClientColumn)),
      startDate := CellAt(cells, LastOf(headers, m, StartColumn)),
      endDate := CellAt(cells, LastOf(headers, m, EndColumn)))
  }

  /** The loop over `enumerate(header_texts)` that fills `client_record`. */
  method MapRow(firmName: string, headers: seq<string>, cells: seq<string>) returns (record: ClientRow)
    ensures record == MappedRow(firmName, headers, cells, |headers|)
  {
    record := BlankRow(firmName);
    for i := 0 to |headers|
      invariant record == MappedRow(firmName, headers, cells, i)
    {
      MappedRowStep(firmName, headers, cells, i);
      if i < |cells| {
        match ColumnOf(headers[i])
        case ClientColumn => record := record.(clientName := Strip(cells[i]));
        case StartColumn => record := record.(startDate := Strip(cells[i]));
        case EndColumn => record := record.(endDate := Strip(cells[i]));
        case OtherColumn =>
      }
    }
  }

  /** One more header: its cell goes to the field its column feeds. */
  lemma MappedRowStep(firmName: string, headers: seq<string>, cells: seq<string>, i: nat)
    requires i < |headers|
    ensures var r := MappedRow(firmName, headers, cells, i);
      MappedRow(firmName, headers, cells, i + 1) ==
        if i >= |cells| then r
        else match ColumnOf(headers[i])
          case ClientColumn => r.(clientName := Strip(cells[i]))
          case StartColumn => r.(startDate := Strip(cells[i]))
          case EndColumn => r.(endDate := Strip(cells[i]))
          case OtherColumn => r
  {
    if i < |cells| {
      var c := ColumnOf(headers[i]);
      assert LastOf(headers, i + 1, c) == Some(i);
      assert forall d | d != c :: LastOf(headers, i + 1, d) == LastOf(headers, i, d);
    }
  }

  /** The records the rows of one table give: rows with cells whose client name is not empty. */
  function TableRecords(firmName: string, headers: seq<string>, rows: seq<seq<string>>): (rs: seq<ClientRow>)
    ensures |rs| <= |rows|
  {
    if rows == [] then []
    else
      var prev := TableRecords(firmName, headers, rows[..|rows| - 1]);
      var cells := rows[|rows| - 1];
      var record := MappedRow(firmName, headers, cells, |headers|);
      if cells != [] && record.clientName != "" then prev + [record] else prev
  }

  /** `for row in rows:` with `if cells:` and `if client_record['client_name']:`. */
  method CollectRows(firmName: string, headers: seq<string>, rows: seq<seq<string>>) returns (results: seq<ClientRow>)
    ensures results == TableRecords(firmName, headers, rows)
  {
    results := [];
    for k := 0 to |rows|
      invariant results == TableRecords(firmName, headers, rows[..k])
    {
      assert rows[..k + 1][..k] == rows[..k];
      var cells := rows[k];
      if cells != [] {
        var record := MapRow(firmName, headers, cells);
        if record.clientName != "" {
          results := results + [record];
        }
      }
    }
    assert rows[..|rows|] == rows;
  }

  /** Every kept row names a client. */
  lemma {:induction false} TableRecordsNamed(firmName: string, headers: seq<string>, rows: seq<seq<string>>)
    ensures forall i | 0 <= i < |TableRecords(firmName, headers, rows)| ::
      TableRecords(firmName, headers, rows)[i].clientName != []
  {
    if rows != [] {
      TableRecordsNamed(firmName, headers, rows[..|rows| - 1]);
    }
  }

  /** A row names a client only through a column whose header says "client". */
  lemma RowNameNeedsHeader(firmName: string, headers: seq<string>, cells: seq<string>)
    requires MappedRow(firmName, headers, cells, |headers|).clientName != []
    ensures exists j | 0 <= j < |headers| :: ColumnOf(headers[j]) == ClientColumn
  {
    var m := if |headers| < |cells| then |headers| else |cells|;
    var o := LastOf(headers, m, ClientColumn);
    assert o.Some?;
    assert ColumnOf(headers[o.value]) == ClientColumn;
  }

  /** Some record comes out only when some header says "client". */
  lemma {:induction false} TableNeedsClientHeader(firmName: string, headers: seq<string>, rows: seq<seq<string>>)
    requires TableRecords(firmName, headers, rows) != []
    ensures exists j | 0 <= j < |headers| :: ColumnOf(headers[j]) == ClientColumn
  {
    var init := rows[..|rows| - 1];
    var cells := rows[|rows| - 1];
    if TableRecords(firmName, headers, init) != [] {
      TableNeedsClientHeader(firmName, headers, init);
    } else {
      RowNameNeedsHeader(firmName, headers, cells);
    }
  }

  /**
   * A table without a "client" header gives no records, so the
   * `any('client' in h.lower() ...)` test in front of the rows changes
   * nothing.
   */
  lemma NoClientHeaderNoRecords(firmName: string, headers: seq<string>, rows: seq<seq<string>>)
    requires forall j | 0 <= j < |headers| :: ColumnOf(headers[j]) != ClientColumn
    ensures TableRecords(firmName, headers, rows) == []
  {
    if TableRecords(firmName, headers, rows) != [] {
      TableNeedsClientHeader(firmName, headers, rows);
    }
  }

  // ---------------------------------------------------------------------
  // The line scanner (lines 120-146)
  // ---------------------------------------------------------------------

  const Months: seq<string> := [
    "January", "February", "March", "April", "May", "June",
    "July", "August", "September", "October", "November", "December"
  ]

  /** `any(month in line for month in [...])`: case-sensitive. */
  predicate NamesMonth(line: string) {
    exists k | 0 <= k < |Months| :: Contains(line, Months[k])
  }

  /** What the scanner makes of a stripped line. */
  datatype LineKind = Skipped | ClientLine | DateLine | OtherLine

  /**
   * Empty lines and lines starting with the copyright sign are skipped; a
   * line mentioning "client" in any case opens a record; a line naming a
   * month may be a date.
   */
  function KindOf(line: string): LineKind {
    if line == [] || line[0] == '©' then Skipped
    else if Contains(Lower(line), "client") then ClientLine
    else if NamesMonth(line) then DateLine
    else OtherLine
  }

  /** The scanner's state: the records already emitted and the open one. */
  datatype ScanState = ScanState(results: seq<ClientRow>, current: Option<ClientRow>)

  /** A date line fills `start_date` while it is empty and `end_date` after that. */
  function AddDate(record: ClientRow, line: string): ClientRow {
    if record.startDate == "" then record.(startDate := line) else record.(endDate := line)
  }

  /**
   * One pass of `for line in lines:` on a stripped line of kind `k`; a
   * date line before any client line changes nothing.
   */
  function ScanLine(firmName: string, st: ScanState, line: string, k: LineKind): ScanState {
    match k
    case ClientLine =>
      ScanState(
        st.results + (if st.current.Some? then [st.current.value] else []),
        Some(BlankRow(firmName).(clientName := line)))
    case DateLine =>
      if st.current.Some? then ScanState(st.results, Some(AddDate(st.current.value, line))) else st
    case _ => st
  }

  /** The state once the loop has seen the stripped `lines`, classified by `kind`. */
  function ScanLines(firmName: string, lines: seq<string>, kind: string -> LineKind): ScanState {
    if lines == [] then ScanState([], None)
    else
      var line := lines[|lines| - 1];
      ScanLine(firmName, ScanLines(firmName, lines[..|lines| - 1], kind), line, kind(line))
  }

  /** The state after one more line is one step from the state before it. */
  lemma ScanLinesStep(firmName: string, lines: seq<string>, k: nat, kind: string -> LineKind)
    requires k < |lines|
    ensures ScanLines(firmName, lines[..k + 1], kind) ==
      ScanLine(firmName, ScanLines(firmName, lines[..k], kind), lines[k], kind(lines[k]))
  {
    assert lines[..k + 1][..k] == lines[..k];
  }

  /** What one section contributes: the records emitted, then the one still open. */
  function Emitted(firmName: string, lines: seq<string>, kind: string -> LineKind): seq<ClientRow> {
    var st := ScanLines(firmName, lines, kind);
    st.results + (if st.current.Some? then [st.current.value] else [])
  }

  /** `lines = text.split('\n')` and the scan of those lines, appended to `results`. */
  method ScanSection(firmName: string, text: string, results: seq<ClientRow>) returns (results': seq<ClientRow>)
    ensures results' == results + Emitted(firmName, StripAll(Split(text, '\n')), KindOf)
  {
    var lines := Split(text, '\n');
    ghost var stripped := StripAll(lines);
    var found: seq<ClientRow> := [];
    var currentClient: Option<ClientRow> := None;
    for k := 0 to |lines|
      invariant ScanLines(firmName, stripped[..k], KindOf) == ScanState(found, currentClient)
    {
      ScanLinesStep(firmName, stripped, k, KindOf);
      var line := Strip(lines[k]);
      found, currentClient := ScanOneLine(firmName, found, currentClient, line);
    }
    assert stripped[..|lines|] == stripped;
    ghost var emitted := Emitted(firmName, stripped, KindOf);
    if currentClient.Some? {
      found := found + [currentClient.value];
    }
    assert found == emitted;
    results' := results + found;
  }

  /** The body of `for line in lines:` after `line = line.strip()`. */
  method ScanOneLine(firmName: string, found: seq<ClientRow>, currentClient: Option<ClientRow>, line: string)
    returns (found': seq<ClientRow>, currentClient': Option<ClientRow>)
    ensures ScanState(found', currentClient') == ScanLine(firmName, ScanState(found, currentClient), line, KindOf(line))
  {
    found', currentClient' := found, currentClient;
    if line != [] && line[0] != '©' {
      if Contains(Lower(line), "client") {
        if currentClient'.Some? {
          found' := found' + [currentClient'.value];
        }
        currentClient' := Some(BlankRow(firmName).(clientName := line));
      } else if currentClient'.Some? && NamesMonth(line) {
        var record := currentClient'.value;
        if record.startDate == "" {
          record := record.(startDate := line);
        } else {
          record := record.(endDate := line);
        }
        currentClient' := Some(record);
      }
    }
  }

  // ---------------------------------------------------------------------
  // What the scanner emits, stated without its state
  // ---------------------------------------------------------------------

  /** A client line and the date lines that follow it before the next client line. */
  datatype Entry = Entry(name: string, dates: seq<string>)

  /**
   * The client lines of `lines`, each with the date lines after it; date
   * lines before the first client line belong to no entry.
   */
  function Entries(lines: seq<string>, kind: string -> LineKind): (es: seq<Entry>)
    ensures |es| == 0 ==> forall k | 0 <= k < |lines| :: kind(lines[k]) != ClientLine
  {
    if lines == [] then []
    else
      var prev := Entries(lines[..|lines| - 1], kind);
      var line := lines[|lines| - 1];
      match kind(line)
      case ClientLine => prev + [Entry(line, [])]
      case DateLine =>
        if prev == [] then prev
        else
          var e := prev[|prev| - 1];
          prev[..|prev| - 1] + [Entry(e.name, e.dates + [line])]
      case _ => prev
  }

  /** The client lines of `lines`, in order. */
  function ClientLines(lines: seq<string>, kind: string -> LineKind): seq<string> {
    if lines == [] then []
    else
      var line := lines[|lines| - 1];
      ClientLines(lines[..|lines| - 1], kind) + (if kind(line) == ClientLine then [line] else [])
  }

  /**
   * The record of one entry: the client line as the name, the first date
   * line as the start, and the last date line as the end once there are
   * two or more.
   */
  function EntryRecord(firmName: string, e: Entry): ClientRow {
    BlankRow(firmName).(
      clientName := e.name,
      startDate := if e.dates == [] then "" else e.dates[0],
      endDate := if |e.dates| >= 2 then e.dates[|e.dates| - 1] else "")
  }

  function EntryRecords(firmName: string, es: seq<Entry>): (rs: seq<ClientRow>)
    ensures |rs| == |es|
    ensures forall i | 0 <= i < |es| :: rs[i] == EntryRecord(firmName, es[i])
  {
    if es == [] then [] else EntryRecords(firmName, es[..|es| - 1]) + [EntryRecord(firmName, es[|es| - 1])]
  }

  /** Date lines are never empty once the line classifier skips empty lines. */
  predicate SkipsEmpty(kind: string -> LineKind) {
    kind("") == Skipped
  }

  /** A date line moves the open record from one entry to the entry with one more date. */
  lemma AddDateEntry(firmName: string, e: Entry, line: string)
    requires line != [] && forall j | 0 <= j < |e.dates| :: e.dates[j] != []
    ensures AddDate(EntryRecord(firmName, e), line) == EntryRecord(firmName, Entry(e.name, e.dates + [line]))
  {
  }

  /** Every date of every entry is a line of kind `DateLine`. */
  lemma {:induction false} EntryDates(lines: seq<string>, kind: string -> LineKind)
    ensures forall i, j | 0 <= i < |Entries(lines, kind)| && 0 <= j < |Entries(lines, kind)[i].dates| ::
      kind(Entries(lines, kind)[i].dates[j]) == DateLine
  {
    if lines != [] {
      EntryDates(lines[..|lines| - 1], kind);
    }
  }

  /**
   * The scanner's state is the entries read so far: the open record is the
   * last entry's, the emitted ones are the entries before it.
   */
  predicate Tracks(firmName: string, st: ScanState, es: seq<Entry>) {
    && (st.current.None? <==> es == [])
    && (es != [] ==> st.current == Some(EntryRecord(firmName, es[|es| - 1])))
    && (es != [] ==> st.results == EntryRecords(firmName, es[..|es| - 1]))
    && (es == [] ==> st.results == [])
  }

  /** A client line emits the open record and opens a new entry. */
  lemma TracksClientLine(firmName: string, st: ScanState, es: seq<Entry>, line: string)
    requires Tracks(firmName, st, es)
    ensures Tracks(firmName, ScanLine(firmName, st, line, ClientLine), es + [Entry(line, [])])
  {
    var es' := es + [Entry(line, [])];
    assert es'[..|es'| - 1] == es;
    if es != [] {
      assert es == es[..|es| - 1] + [es[|es| - 1]];
      assert EntryRecords(firmName, es) == EntryRecords(firmName, es[..|es| - 1]) + [EntryRecord(firmName, es[|es| - 1])];
    }
  }

  /** A date line adds a date to the last entry, if there is one. */
  lemma TracksDateLine(firmName: string, st: ScanState, es: seq<Entry>, e: Entry, line: string)
    requires Tracks(firmName, st, es) && es != [] && e == es[|es| - 1] && line != []
    requires forall j | 0 <= j < |e.dates| :: e.dates[j] != []
    ensures Tracks(firmName, ScanLine(firmName, st, line, DateLine), es[..|es| - 1] + [Entry(e.name, e.dates + [line])])
  {
    AddDateEntry(firmName, e, line);
    var es' := es[..|es| - 1] + [Entry(e.name, e.dates + [line])];
    assert es'[..|es'| - 1] == es[..|es| - 1];
  }

  lemma {:induction false} ScanIsEntries(firmName: string, lines: seq<string>, kind: string -> LineKind)
    requires SkipsEmpty(kind)
    ensures Tracks(firmName, ScanLines(firmName, lines, kind), Entries(lines, kind))
  {
    if lines != [] {
      var init := lines[..|lines| - 1];
      ScanIsEntries(firmName, init, kind);
      var prev := Entries(init, kind);
      var st := ScanLines(firmName, init, kind);
      var line := lines[|lines| - 1];
      match kind(line)
      case ClientLine =>
        TracksClientLine(firmName, st, prev, line);
      case DateLine =>
        if prev != [] {
          EntryDates(init, kind);
          var e := prev[|prev| - 1];
          assert forall j | 0 <= j < |e.dates| :: kind(e.dates[j]) == DateLine;
          TracksDateLine(firmName, st, prev, e, line);
        }
      case _ =>
    }
  }

  /** One record per client line, in line order, each a client line's entry. */
  lemma EmittedRecords(firmName: string, lines: seq<string>, kind: string -> LineKind)
    requires SkipsEmpty(kind)
    ensures Emitted(firmName, lines, kind) == EntryRecords(firmName, Entries(lines, kind))
  {
    ScanIsEntries(firmName, lines, kind);
    var es := Entries(lines, kind);
    if es != [] {
      assert es == es[..|es| - 1] + [es[|es| - 1]];
      assert EntryRecords(firmName, es) == EntryRecords(firmName, es[..|es| - 1]) + [EntryRecord(firmName, es[|es| - 1])];
    }
  }

  /** The entries are the client lines, in order. */
  lemma {:induction false} EntryNames(lines: seq<string>, kind: string -> LineKind)
    ensures |Entries(lines, kind)| == |ClientLines(lines, kind)|
    ensures forall i | 0 <= i < |Entries(lines, kind)| :: Entries(lines, kind)[i].name == ClientLines(lines, kind)[i]
  {
    if lines != [] {
      var init := lines[..|lines| - 1];
      var line := lines[|lines| - 1];
      EntryNames(init, kind);
      if kind(line) == ClientLine {
        assert ClientLines(lines, kind) == ClientLines(init, kind) + [line];
      } else {
        assert ClientLines(lines, kind) == ClientLines(init, kind);
      }
    }
  }

  /**
   * As many records as client lines, the k-th named by the k-th client
   * line; its start date is the first date line after that client line and
   * its end date the last, once there are two.
   */
  lemma ScanCountsClients(firmName: string, lines: seq<string>)
    ensures |Emitted(firmName, lines, KindOf)| == |Entries(lines, KindOf)| == |ClientLines(lines, KindOf)|
    ensures forall k | 0 <= k < |ClientLines(lines, KindOf)| ::
      Emitted(firmName, lines, KindOf)[k] == EntryRecord(firmName, Entries(lines, KindOf)[k])
      && Entries(lines, KindOf)[k].name == ClientLines(lines, KindOf)[k]
  {
    EmittedRecords(firmName, lines, KindOf);
    EntryNames(lines, KindOf);
  }

  /** Without a client line nothing is emitted: date lines before any client line are dropped. */
  lemma NoClientLineNoRecords(firmName: string, lines: seq<string>)
    requires forall k | 0 <= k < |lines| :: KindOf(lines[k]) != ClientLine
    ensures Emitted(firmName, lines, KindOf) == []
  {
    NoClientLinesEmpty(lines, KindOf);
    ScanCountsClients(firmName, lines);
  }

  lemma {:induction false} NoClientLinesEmpty(lines: seq<string>, kind: string -> LineKind)
    requires forall k | 0 <= k < |lines| :: kind(lines[k]) != ClientLine
    ensures ClientLines(lines, kind) == []
  {
    if lines != [] {
      NoClientLinesEmpty(lines[..|lines| - 1], kind);
    }
  }
}
