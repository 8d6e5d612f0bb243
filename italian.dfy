/**
 * The Italian lobbying register scraper, `lobbyharvest/src/scrapers/italian_lobbying.py`:
 * its date reader `parse_italian_date` and the loop that drops repeated
 * client names before the records are returned.
 */
module Italian {
  import opened Common
  import opened Text
  import opened Calendar
  import opened Values
  import Strptime
  import KeyedFold

  // ---------------------------------------------------------------------
  // parse_italian_date
  // ---------------------------------------------------------------------

  /**
   * `day, month, year = date_str.split('/')` then `datetime(int(year),
   * int(month), int(day))`: the date, or `None` where the split does not
   * give three parts, `int()` raises or the date does not exist.
   */
  function SlashDate(t: string): Option<Date> {
    if '/' !in t then None
    else
      var parts := Split(t, '/');
      if |parts| != 3 then None
      else
        match (PyInt(parts[0]), PyInt(parts[1]), PyInt(parts[2]))
        case (Some(day), Some(month), Some(year)) =>
          var d := Date(year, month, day);
          if IsValidDate(d) then Some(d) else None
        case _ => None
  }

  /** `date_str.isdigit() and len(date_str) == 4` with `1900 <= int(date_str) <= 2100`: January 1st of that year. */
  function YearOnly(t: string): Option<Date> {
    if AllDigits(t) && |t| == 4 && 1900 <= DigitsValue(t) <= 2100 then Some(Date(DigitsValue(t), 1, 1))
    else None
  }

  /**
   * `parse_italian_date(date_str)`: `None` for the empty string; a
   * DD/MM/YYYY date of the stripped text as `YYYY-MM-DD`; a bare year as
   * its January 1st; `None` for anything else. The input is never handed
   * back.
   */
  function ParseItalianDate(s: string): (r: Option<string>)
    ensures s == [] ==> r.None?
    ensures r.Some? ==> IsIsoShaped(r.value) && r.value != s
  {
    if s == [] then None
    else
      var t := Strip(s);
      var r := match SlashDate(t)
        case Some(d) => Some(IsoFormat(d))
        case None =>
          match YearOnly(t)
          case Some(d) => Some(IsoFormat(d))
          case None => None;
      IsoShapedRejected(s);
      r
  }

  /**
   * Text already in ISO form reads as neither a slashed date nor a bare
   * year, so a result can never equal its input.
   */
  lemma IsoShapedRejected(s: string)
    ensures IsIsoShaped(s) ==> SlashDate(Strip(s)).None? && YearOnly(Strip(s)).None?
  {
    if IsIsoShaped(s) {
      assert IsDigit(s[0]) && IsDigit(s[9]);
      StripOfStripped(s);
      forall i | 0 <= i < |s| ensures s[i] != '/' {
        if i < 4 { assert s[..4][i] == s[i]; }
        else if 4 < i < 7 { assert s[5..7][i - 5] == s[i]; }
        else if 7 < i { assert s[8..][i - 8] == s[i]; }
      }
    }
  }

  /**
   * Three `/`-separated parts that `int()` reads as a real day, month and
   * year give that date in ISO form, whatever whitespace surrounds the text.
   */
  lemma ItalianSlashed(s: string, day: string, month: string, year: string, d: Date)
    requires Strip(s) == day + "/" + month + "/" + year
    requires '/' !in day && '/' !in month && '/' !in year
    requires PyInt(day) == Some(d.day) && PyInt(month) == Some(d.month) && PyInt(year) == Some(d.year)
    requires IsValidDate(d)
    ensures ParseItalianDate(s) == Some(IsoFormat(d))
  {
    SlashParts(day, month, year);
    assert SlashDate(Strip(s)) == Some(d);
  }

  /**
   * A `/` in the stripped text and no real date in it gives `None`: the
   * bare-year branch never reads text with a `/`.
   */
  lemma ItalianSlashedInvalid(s: string)
    requires s != [] && '/' in Strip(s) && SlashDate(Strip(s)).None?
    ensures ParseItalianDate(s).None?
  {
    var t := Strip(s);
    assert !AllDigits(t) by {
      var i :| 0 <= i < |t| && t[i] == '/';
    }
  }

  /** The parts of `day/month/year`. */
  lemma SlashParts(day: string, month: string, year: string)
    requires '/' !in day && '/' !in month && '/' !in year
    ensures Split(day + "/" + month + "/" + year, '/') == [day, month, year]
    ensures '/' in day + "/" + month + "/" + year
  {
    assert day + "/" + month + "/" + year == day + ['/'] + (month + ['/'] + year);
    SplitCons(day, month + ['/'] + year, '/');
    SplitOneSeparator(month, year, '/');
    assert (day + "/" + month + "/" + year)[|day|] == '/';
  }

  /** `DD/MM/YYYY` as any date renders it reads back as that date. */
  lemma ItalianRoundTrip(d: Date)
    requires IsValidDate(d)
    ensures ParseItalianDate(SlashedDate(d)) == Some(IsoFormat(d))
  {
    var s := SlashedDate(d);
    assert IsDigit(s[0]) && IsDigit(s[|s| - 1]);
    StripOfStripped(s);
    SlashFree(Pad(d.day, 2));
    SlashFree(Pad(d.month, 2));
    SlashFree(Pad(d.year, 4));
    PadInt(d.day, 2);
    PadInt(d.month, 2);
    PadInt(d.year, 4);
    ItalianSlashed(s, Pad(d.day, 2), Pad(d.month, 2), Pad(d.year, 4), d);
  }

  /** `dt.strftime('%d/%m/%Y')`. */
  function SlashedDate(d: Date): string
    requires IsValidDate(d)
  {
    Pad(d.day, 2) + "/" + Pad(d.month, 2) + "/" + Pad(d.year, 4)
  }

  lemma SlashFree(p: string)
    requires AllDigits(p)
    ensures '/' !in p
  {
  }

  lemma PadInt(n: nat, w: nat)
    requires 0 < w && n < Pow10(w)
    ensures PyInt(Pad(n, w)) == Some(n)
  {
    PadValue(n, w);
    PyIntOfDigits(Pad(n, w));
  }

  /**
   * A four-digit year from 1900 to 2100 becomes its January 1st, written
   * as the year's own digits; any other four-digit number gives `None`.
   */
  lemma ItalianYear(s: string)
    requires AllDigits(Strip(s)) && |Strip(s)| == 4
    ensures 1900 <= DigitsValue(Strip(s)) <= 2100 ==> ParseItalianDate(s) == Some(Strip(s) + "-01-01")
    ensures !(1900 <= DigitsValue(Strip(s)) <= 2100) ==> ParseItalianDate(s).None?
  {
    var t := Strip(s);
    assert forall i | 0 <= i < |t| :: t[i] != '/';
    if 1900 <= DigitsValue(t) <= 2100 {
      PadDigits(t);
      Strptime.PadTwo(1);
      assert IsoFormat(Date(DigitsValue(t), 1, 1)) == t + "-01-01";
    }
  }

  /** Zero-padding the value of a run of digits to its own length gives the run back. */
  lemma {:induction false} PadDigits(t: string)
    requires AllDigits(t)
    ensures Pad(DigitsValue(t), |t|) == t
  {
    if t != [] {
      var init := t[..|t| - 1];
      var n := DigitsValue(t);
      PadDigits(init);
      assert n / 10 == DigitsValue(init) && n % 10 == DigitOf(t[|t| - 1]);
      assert t == init + [t[|t| - 1]];
    }
  }

  /** An ISO date, the form every other reader emits, is not accepted here. */
  lemma ItalianRejectsIso(d: Date)
    requires IsValidDate(d)
    ensures ParseItalianDate(IsoFormat(d)).None?
  {
    IsoShapedRejected(IsoFormat(d));
  }

  // ---------------------------------------------------------------------
  // The records and the duplicate filter (lines 138-161)
  // ---------------------------------------------------------------------

  /** The record built for each company name found on the page. */
  function ClientRecord(firmName: string, clientName: string): (r: Record) {
    map[
      "firm_name" := Str(firmName),
      "firm_registration_number" := Null,
      "client_name" := Str(clientName),
      "client_registration_number" := Null,
      "start_date" := Null,
      "end_date" := Null
    ]
  }

  /** The records built for `names`, in order. */
  function ClientRecords(firmName: string, names: seq<string>): (rs: seq<Record>)
    ensures |rs| == |names|
    ensures forall i | 0 <= i < |names| :: rs[i] == ClientRecord(firmName, names[i])
  {
    if names == [] then []
    else ClientRecords(firmName, names[..|names| - 1]) + [ClientRecord(firmName, names[|names| - 1])]
  }

  /** Every record the scraper builds has a string `client_name`. */
  predicate Named(r: Record) {
    "client_name" in r && r["client_name"].Str?
  }

  /** `client['client_name']`. */
  function ClientKey(r: Record): string {
    if Named(r) then r["client_name"].s else ""
  }

  /**
   * The loop of lines 153-159: a `seen` set of names and the list of the
   * first record of each name, in input order.
   */
  method UniqueClients(clients: seq<Record>) returns (unique: seq<Record>)
    requires forall i | 0 <= i < |clients| :: Named(clients[i])
    ensures unique == KeyedFold.Dedup(clients, ClientKey)
    ensures KeyedFold.Distinct(KeyedFold.Keys(unique, ClientKey))
    ensures forall k :: k in KeyedFold.Keys(unique, ClientKey) <==> k in KeyedFold.Keys(clients, ClientKey)
    ensures KeyedFold.FirstSeenOrder(KeyedFold.Keys(unique, ClientKey), KeyedFold.Keys(clients, ClientKey))
  {
    var seen: set<string> := {};
    unique := [];
    for i := 0 to |clients|
      invariant unique == KeyedFold.Dedup(clients[..i], ClientKey)
      invariant forall k :: k in seen <==> k in KeyedFold.Keys(clients[..i], ClientKey)
    {
      var clientKey := clients[i]["client_name"].s;
      assert clients[..i + 1][..i] == clients[..i];
      assert KeyedFold.Keys(clients[..i + 1], ClientKey) == KeyedFold.Keys(clients[..i], ClientKey) + [clientKey];
      if clientKey !in seen {
        seen := seen + {clientKey};
        unique := unique + [clients[i]];
      }
    }
    assert clients[..|clients|] == clients;
    KeyedFold.DedupDistinct(clients, ClientKey);
    KeyedFold.DedupKeys(clients, ClientKey);
    KeyedFold.DedupOrder(clients, ClientKey);
  }

  /**
   * The records come from a set of company names, so no name repeats and
   * the filter keeps every record.
   */
  lemma FromSetKeepsAll(firmName: string, names: seq<string>)
    requires KeyedFold.Distinct(names)
    ensures KeyedFold.Dedup(ClientRecords(firmName, names), ClientKey) == ClientRecords(firmName, names)
  {
    var rs := ClientRecords(firmName, names);
    assert KeyedFold.Keys(rs, ClientKey) == names;
    KeyedFold.DedupOfDistinct(rs, ClientKey);
  }
}
