/**
 * `lobbyharvest/src/utils/normalize.py`, its pure part: firm-name
 * canonicalisation, date normalisation, the client identity key and the
 * mandatory-field gate. The merge loop lives in module `Merge`.
 */
module Normalize {
  import opened Common
  import opened Text
  import opened Calendar
  import opened Strptime
  import opened Values

  // ---------------------------------------------------------------------
  // normalize_firm_name
  // ---------------------------------------------------------------------

  /** The alternatives of the suffix pattern, in pattern order. */
  const CorporateSuffixes: seq<string> :=
    ["LLC", "LTD", "LIMITED", "INC", "INCORPORATED", "CORP", "CORPORATION", "PLC"]

  /** Where the word that ends at `p` starts: the run of non-whitespace characters before `p`. */
  function WordRunStart(s: string, p: nat): (i: nat)
    requires p <= |s|
    ensures i <= p && (forall j | i <= j < p :: !IsSpace(s[j])) && (i > 0 ==> IsSpace(s[i - 1]))
    decreases p
  {
    if p > 0 && !IsSpace(s[p - 1]) then WordRunStart(s, p - 1) else p
  }

  /** A word run reaches back over any characters that are not whitespace. */
  lemma {:induction false} WordRunStartSkip(s: string, p: nat, q: nat)
    requires p <= q <= |s| && forall j | p <= j < q :: !IsSpace(s[j])
    ensures WordRunStart(s, q) == WordRunStart(s, p)
    decreases q
  {
    if p < q {
      WordRunStartSkip(s, p, q - 1);
    }
  }

  /** Where `$` can match: at the end, or just before one final newline. */
  function DollarAt(s: string): (e: nat)
    ensures e <= |s| && (e == |s| || (e == |s| - 1 && s[e] == '\n'))
  {
    if |s| > 0 && s[|s| - 1] == '\n' then |s| - 1 else |s|
  }

  /**
   * Where the match of `\s+(LLC|...|PLC)\.?$` starts, if there is one: at
   * the first character of the whitespace run before a trailing suffix
   * word, which may carry one dot and be followed by one final newline.
   * The words contain no whitespace, so the suffix word can only be the
   * last word, and the pattern is anchored: there is at most one match.
   */
  function SuffixStart(s: string, words: seq<string>): (k: Option<nat>)
    ensures k.Some? ==> k.value < DollarAt(s) && IsSpace(s[k.value])
  {
    var e := DollarAt(s);
    var we := if e > 0 && s[e - 1] == '.' then e - 1 else e;
    var ws := WordRunStart(s, we);
    if 0 < ws && s[ws..we] in words then Some(SpaceRunStart(s, ws))
    else None
  }

  /**
   * `re.sub(r'\s+(LLC|LTD|LIMITED|INC|INCORPORATED|CORP|CORPORATION|PLC)\.?$', '', s)`:
   * the matched span is cut out; a final newline after it stays.
   */
  function StripCorporateSuffix(s: string): (r: string)
    ensures |r| <= |s|
  {
    match SuffixStart(s, CorporateSuffixes)
    case None => s
    case Some(k) => s[..k] + s[DollarAt(s)..]
  }

  /** `re.sub(r'[^\w\s]', '', s)`: only word characters and whitespace remain. */
  function KeepWordAndSpace(s: string): (r: string)
    ensures |r| <= |s|
  {
    if s == [] then []
    else (if IsWordChar(s[0]) || IsSpace(s[0]) then [s[0]] else []) + KeepWordAndSpace(s[1..])
  }

  /** `normalize_firm_name(name)`; `None` is passed as `""`, which the guard treats alike. */
  function NormalizeFirmName(name: string): string {
    if name == [] then ""
    else Squash(KeepWordAndSpace(StripCorporateSuffix(Upper(name))))
  }

  /** Characters a normalised name is made of: upper-case word characters and blanks. */
  predicate NameChar(c: char) {
    c == ' ' || (IsWordChar(c) && !('a' <= c <= 'z'))
  }

  predicate IsNormalName(r: string) {
    SingleSpaced(r) && forall i | 0 <= i < |r| :: NameChar(r[i])
  }

  /** Where a kept character stands in the text: every kept character is a word character or whitespace. */
  lemma KeepSource(s: string, j: nat) returns (i: nat)
    requires j < |KeepWordAndSpace(s)|
    ensures i < |s| && s[i] == KeepWordAndSpace(s)[j] && (IsWordChar(s[i]) || IsSpace(s[i]))
    decreases |s|
  {
    var h := if IsWordChar(s[0]) || IsSpace(s[0]) then [s[0]] else [];
    assert KeepWordAndSpace(s) == h + KeepWordAndSpace(s[1..]);
    if j < |h| {
      i := 0;
    } else {
      var i' := KeepSource(s[1..], j - |h|);
      i := i' + 1;
    }
  }

  /** Where a character of the suffix-stripped text stands in the text. */
  lemma StripCorporateSuffixSource(s: string, j: nat) returns (i: nat)
    requires j < |StripCorporateSuffix(s)|
    ensures i < |s| && s[i] == StripCorporateSuffix(s)[j]
  {
    match SuffixStart(s, CorporateSuffixes)
    case None =>
      i := j;
    case Some(k) =>
      var e := DollarAt(s);
      assert StripCorporateSuffix(s) == s[..k] + s[e..];
      if j < k {
        i := j;
      } else {
        i := e + (j - k);
      }
  }

  /** The output is upper-case word characters joined by single blanks, never padded. */
  lemma NormalizeFirmNameShape(name: string)
    ensures IsNormalName(NormalizeFirmName(name))
    ensures name == [] ==> NormalizeFirmName(name) == []
  {
    if name != [] {
      var u := Upper(name);
      var k := KeepWordAndSpace(StripCorporateSuffix(u));
      var r := Squash(k);
      SquashShape(k);
      forall i | 0 <= i < |r|
        ensures NameChar(r[i])
      {
        var j := SquashSource(k, i);
        if r[i] != ' ' {
          var j' := KeepSource(StripCorporateSuffix(u), j);
          var n := StripCorporateSuffixSource(u, j');
          assert u[n] == UpperChar(name[n]);
        }
      }
    }
  }

  /**
   * One whitespace-preceded suffix word at the end, with or without a dot,
   * is removed together with all the whitespace before it.
   */
  lemma StripCorporateSuffixOf(b: string, ws: string, w: string, dot: string)
    requires w in CorporateSuffixes && ws != [] && AllSpace(ws) && (dot == "" || dot == ".")
    ensures StripCorporateSuffix(b + ws + w + dot) == TrimEnd(b)
  {
    var s := b + ws + w + dot;
    SuffixWordLetters(w);
    SuffixStartOf(b + ws, w, dot, CorporateSuffixes);
    assert s[|s|..] == [];
    assert s == b + ws + (w + dot);
    TrimmedPrefix(b, ws, w + dot);
  }

  /** Cutting `b + ws + x` where the trimmed `b + ws` ends leaves the trimmed `b`. */
  lemma TrimmedPrefix(b: string, ws: string, x: string)
    requires AllSpace(ws)
    ensures (b + ws + x)[..|TrimEnd(b + ws)|] == TrimEnd(b)
  {
    TrimEndAppendSpace(b, ws);
    assert b + ws + x == b + (ws + x);
    assert (b + (ws + x))[..|TrimEnd(b)|] == b[..|TrimEnd(b)|];
  }

  lemma SuffixWordLetters(w: string)
    requires w in CorporateSuffixes
    ensures w != [] && IsLetter(w[|w| - 1]) && forall i | 0 <= i < |w| :: !IsSpace(w[i])
  {
  }

  lemma SuffixStartOf(bw: string, w: string, dot: string, words: seq<string>)
    requires w in words && w != [] && IsLetter(w[|w| - 1]) && forall i | 0 <= i < |w| :: !IsSpace(w[i])
    requires bw != [] && IsSpace(bw[|bw| - 1]) && (dot == "" || dot == ".")
    ensures SuffixStart(bw + w + dot, words) == Some(|TrimEnd(bw)|)
    ensures DollarAt(bw + w + dot) == |bw + w + dot|
  {
    var s := bw + w + dot;
    SuffixWordEnd(bw, w, dot);
    WordAfterSpace(bw, w, dot);
    assert s == bw + (w + dot);
    SpaceRunStartPrefix(bw, w + dot, |bw|);
  }

  /** The suffix word ends where the text does, or just before its dot. */
  lemma SuffixWordEnd(bw: string, w: string, dot: string)
    requires w != [] && IsLetter(w[|w| - 1]) && (dot == "" || dot == ".")
    ensures var s := bw + w + dot;
      && DollarAt(s) == |s|
      && (if DollarAt(s) > 0 && s[DollarAt(s) - 1] == '.' then DollarAt(s) - 1 else DollarAt(s)) == |bw| + |w|
  {
    var s := bw + w + dot;
    assert s[|s| - 1] == (if dot == "" then w[|w| - 1] else '.');
  }

  /** A word after whitespace is the word that ends where it ends. */
  lemma WordAfterSpace(bw: string, w: string, x: string)
    requires bw != [] && IsSpace(bw[|bw| - 1]) && forall i | 0 <= i < |w| :: !IsSpace(w[i])
    ensures WordRunStart(bw + w + x, |bw| + |w|) == |bw|
    ensures (bw + w + x)[|bw|..|bw| + |w|] == w
  {
    var s := bw + w + x;
    assert forall j | |bw| <= j < |bw| + |w| :: s[j] == w[j - |bw|];
    WordRunStartSkip(s, |bw|, |bw| + |w|);
    assert s[|bw| - 1] == bw[|bw| - 1];
  }

  lemma UpperSpaces(ws: string)
    requires AllSpace(ws)
    ensures Upper(ws) == ws
  {
  }

  lemma {:induction false} KeepAppend(a: string, b: string)
    ensures KeepWordAndSpace(a + b) == KeepWordAndSpace(a) + KeepWordAndSpace(b)
  {
    if a == [] {
      assert a + b == b;
    } else {
      var h := if IsWordChar(a[0]) || IsSpace(a[0]) then [a[0]] else [];
      assert (a + b)[0] == a[0] && (a + b)[1..] == a[1..] + b;
      KeepAppend(a[1..], b);
      assert KeepWordAndSpace(a) == h + KeepWordAndSpace(a[1..]);
      assert KeepWordAndSpace(a + b) == h + KeepWordAndSpace(a[1..] + b);
    }
  }

  lemma AllSpaceKeep(ws: string)
    requires AllSpace(ws)
    ensures KeepWordAndSpace(ws) == ws
  {
  }

  /**
   * A suffix word changes nothing but itself: when the upper-cased name
   * carries no suffix of its own, adding one (any case, dot or not, after
   * any whitespace) gives the same normalised name; "Acme" and "Acme Corp."
   * both give "ACME".
   */
  lemma SuffixInsensitive(b: string, ws: string, w: string, dot: string)
    requires b != [] && StripCorporateSuffix(Upper(b)) == Upper(b)
    requires Upper(w) in CorporateSuffixes && ws != [] && AllSpace(ws) && (dot == "" || dot == ".")
    ensures NormalizeFirmName(b + ws + w + dot) == NormalizeFirmName(b)
  {
    UpperSuffixed(b, ws, w, dot);
    StripCorporateSuffixOf(Upper(b), ws, Upper(w), dot);
    SquashKeepTrimmed(Upper(b));
  }

  lemma UpperSuffixed(b: string, ws: string, w: string, dot: string)
    requires AllSpace(ws) && (dot == "" || dot == ".")
    ensures Upper(b + ws + w + dot) == Upper(b) + ws + Upper(w) + dot
  {
    UpperAppend(b + ws + w, dot);
    UpperAppend(b + ws, w);
    UpperAppend(b, ws);
    UpperSpaces(ws);
    assert Upper(dot) == dot;
  }

  /** Whitespace at the end of the text never reaches the normalised name. */
  lemma SquashKeepTrimmed(u: string)
    ensures Squash(KeepWordAndSpace(TrimEnd(u))) == Squash(KeepWordAndSpace(u))
  {
    var t := TrimEnd(u);
    var rest := u[|t|..];
    assert u == t + rest;
    KeepAppend(t, rest);
    AllSpaceKeep(rest);
    SquashAppendSpace(KeepWordAndSpace(t), rest);
  }

  /** A name already in normal form and carrying no suffix is left as it is. */
  lemma NormalizeFirmNameFixpoint(y: string)
    requires IsNormalName(y) && StripCorporateSuffix(y) == y
    ensures NormalizeFirmName(y) == y
  {
    if y != [] {
      assert Upper(y) == y;
      KeepNormal(y);
      CollapseSingleSpaced(y);
      StripOfStripped(y);
    }
  }

  lemma KeepNormal(y: string)
    requires forall i | 0 <= i < |y| :: NameChar(y[i])
    ensures KeepWordAndSpace(y) == y
  {
  }

  lemma UpperNormal(y: string)
    requires forall i | 0 <= i < |y| :: NameChar(y[i])
    ensures Upper(y) == y
  {
  }

  /** Text in normal form comes out of the punctuation and whitespace passes unchanged. */
  lemma CleanNormal(y: string)
    requires IsNormalName(y)
    ensures Squash(KeepWordAndSpace(y)) == y
  {
    KeepNormal(y);
    CollapseSingleSpaced(y);
    StripOfStripped(y);
  }

  /** A normal name followed by a blank and a suffix word normalises to the name. */
  lemma NormalizeSuffixed(b: string, w: string)
    requires IsNormalName(b) && b != [] && w in CorporateSuffixes
    ensures NormalizeFirmName(b + " " + w) == b
  {
    SuffixWordLetters(w);
    assert forall i | 0 <= i < |b + " " + w| :: NameChar((b + " " + w)[i]);
    UpperNormal(b + " " + w);
    StripCorporateSuffixOf(b, " ", w, "");
    assert b + " " + w + "" == b + " " + w;
    assert TrimEnd(b) == b;
    CleanNormal(b);
  }

  /** "X INC LTD" loses only its last suffix, so a second call changes the result again. */
  lemma NotIdempotent()
    ensures NormalizeFirmName("X INC LTD") == "X INC"
    ensures NormalizeFirmName("X INC") == "X"
  {
    SpellXIncLtd();
    NormalizeSuffixed("X INC", "LTD");
    NormalizeSuffixed("X", "INC");
  }

  lemma SpellXIncLtd()
    ensures "X INC" + " " + "LTD" == "X INC LTD" && "X" + " " + "INC" == "X INC"
    ensures IsNormalName("X INC") && IsNormalName("X")
  {
  }

  /**
   * Whitespace after the suffix word, other than one final newline, hides
   * it from the anchored pattern: nothing is cut.
   */
  lemma TrailingBlankKeepsSuffix(s: string)
    requires s != [] && IsSpace(s[|s| - 1]) && s[|s| - 1] != '\n'
    ensures StripCorporateSuffix(s) == s
  {
    assert DollarAt(s) == |s|;
    assert WordRunStart(s, |s|) == |s|;
    assert s[|s|..|s|] == [];
  }

  /** "Acme Inc " keeps its suffix. */
  lemma TrailingBlankExample()
    ensures NormalizeFirmName("Acme Inc ") == "ACME INC"
  {
    SpellAcmeInc();
    TrailingBlankKeepsSuffix("ACME INC ");
    SquashKeepTrimmed("ACME INC ");
    CleanNormal("ACME INC");
  }

  lemma SpellAcmeInc()
    ensures Upper("Acme Inc ") == "ACME INC " && TrimEnd("ACME INC ") == "ACME INC"
    ensures IsNormalName("ACME INC")
  {
    UpperAcmeInc();
    TrimEndBlank("ACME INC");
    assert "ACME INC" + " " == "ACME INC ";
    NormalAcmeInc();
  }

  /** One trailing blank after a non-blank end is all `rstrip` removes. */
  lemma TrimEndBlank(s: string)
    requires s != [] && !IsSpace(s[|s| - 1])
    ensures TrimEnd(s + " ") == s
  {
    var t := s + " ";
    assert t[|s|] == ' ' && t[|s| - 1] == s[|s| - 1];
    assert SpaceRunStart(t, |t|) == SpaceRunStart(t, |s|) == |s|;
  }

  lemma UpperAcmeInc()
    ensures Upper("Acme Inc ") == "ACME INC "
  {
  }

  lemma NormalAcmeInc()
    ensures IsNormalName("ACME INC")
  {
    assert SingleSpaced("ACME INC");
  }

  // ---------------------------------------------------------------------
  // normalize_date
  // ---------------------------------------------------------------------

  /** The formats `normalize_date` tries, in order. */
  const DateFormats: seq<string> :=
    ["%Y-%m-%d", "%d/%m/%Y", "%m/%d/%Y", "%d-%m-%Y", "%Y/%m/%d", "%d %B %Y", "%B %d, %Y", "%Y%m%d"]

  /** The day-first slashed format as directive and separator characters. */
  lemma DateShapes()
    ensures DateFormats[1] == Triple('d', 'm', 'Y', '/')
  {
  }

  /**
   * `normalize_date(date_str)`: `None` for `None` or `""`; otherwise the
   * first format that parses the stripped text gives `YYYY-MM-DD`, and
   * when none does the input comes back unchanged, unstripped.
   */
  function NormalizeDate(o: Option<string>): (r: Option<string>)
    ensures r.None? <==> (o.None? || o.value == [])
    ensures r.Some? ==> r.value != []
  {
    match o
    case None => None
    case Some(s) =>
      if s == [] then None
      else
        match FirstParse(DateFormats, Strip(s))
        case Some((_, d)) => Some(IsoFormat(d))
        case None => Some(s)
  }

  /** The first format that parses the stripped text decides the result. */
  lemma NormalizeDateFirstMatch(s: string, i: nat, d: Date)
    requires s != [] && i < |DateFormats| && Parse(DateFormats[i], Strip(s)) == Some(d)
    requires forall j | 0 <= j < i :: Parse(DateFormats[j], Strip(s)).None?
    ensures NormalizeDate(Some(s)) == Some(IsoFormat(d))
  {
    match FirstParse(DateFormats, Strip(s))
    case None =>
    case Some((k, e)) =>
      if k < i {
      } else if i < k {
      }
  }

  /** Text no format parses is returned exactly as given. */
  lemma NormalizeDateFallback(s: string)
    requires s != [] && forall j | 0 <= j < |DateFormats| :: Parse(DateFormats[j], Strip(s)).None?
    ensures NormalizeDate(Some(s)) == Some(s)
  {
  }

  /** Each result is an ISO date or the input itself. */
  lemma NormalizeDateResult(s: string)
    requires s != []
    ensures var r := NormalizeDate(Some(s)).value;
      r == s || exists d :: IsValidDate(d) && r == IsoFormat(d)
  {
  }

  /** A rendered date normalises to itself. */
  lemma NormalizeIso(d: Date)
    requires IsValidDate(d)
    ensures NormalizeDate(Some(IsoFormat(d))) == Some(IsoFormat(d))
  {
    IsoStripped(d);
    IsoRoundTrip(d);
    NormalizeDateFirstMatch(IsoFormat(d), 0, d);
  }

  /** Normalising a normalised date changes nothing. */
  lemma NormalizeDateIdempotent(o: Option<string>)
    ensures NormalizeDate(NormalizeDate(o)) == NormalizeDate(o)
  {
    if o.Some? && o.value != [] {
      match FirstParse(DateFormats, Strip(o.value))
      case Some((_, d)) => NormalizeIso(d);
      case None =>
    }
  }

  /**
   * Day-first is tried before month-first: every slashed date reads as
   * DD/MM/YYYY whenever that names a real day.
   */
  lemma NormalizeDayFirst(d: Date)
    requires IsValidDate(d)
    ensures NormalizeDate(Some(Separated(d.day, d.month, d.year, '/'))) == Some(IsoFormat(d))
  {
    var s := Separated(d.day, d.month, d.year, '/');
    assert IsDigit(s[0]) && IsDigit(s[9]);
    StripOfStripped(s);
    IsoRejectsNonDigit(s, 2);
    DayFirstParses(d);
    NormalizeDateFirstMatch(s, 1, d);
  }

  /** `%d/%m/%Y`, the second format, reads a slashed date day first. */
  lemma DayFirstParses(d: Date)
    requires IsValidDate(d)
    ensures Parse(DateFormats[1], Separated(d.day, d.month, d.year, '/')) == Some(d)
  {
    DmyRoundTrip(d, '/');
    DateShapes();
  }

  /** "03/04/2023" is the 3rd of April, not the 4th of March. */
  lemma DayFirst()
    ensures NormalizeDate(Some("03/04/2023")) == Some("2023-04-03")
  {
    NormalizeDayFirst(Date(2023, 4, 3));
    April3Slashed();
    April3Iso();
  }

  /** `%Y-%m-%d` cannot read text with a non-digit among its first four characters. */
  lemma IsoRejectsNonDigit(s: string, i: nat)
    requires i < 4 && i < |s| && !IsDigit(s[i])
    ensures Parse(DateFormats[0], s).None?
  {
    NoYearAt(s, i);
    DirectiveFirstFails(DateFormats[0], s);
  }

  lemma April3Slashed()
    ensures Separated(3, 4, 2023, '/') == "03/04/2023"
  {
    PadFour(2023);
    PadTwo(4);
    PadTwo(3);
  }

  lemma April3Iso()
    ensures IsoFormat(Date(2023, 4, 3)) == "2023-04-03"
  {
    PadFour(2023);
    PadTwo(4);
    PadTwo(3);
  }

  // ---------------------------------------------------------------------
  // generate_client_id
  // ---------------------------------------------------------------------

  predicate IsHexDigit(c: char) {
    '0' <= c <= '9' || 'a' <= c <= 'f'
  }

  function HexChar(d: nat): (c: char)
    requires d < 16
    ensures IsHexDigit(c)
  {
    if d < 10 then ('0' as int + d) as char else ('a' as int + d - 10) as char
  }

  /** `n` as `width` lowercase hexadecimal digits, most significant first. */
  function Hex(n: nat, width: nat): (h: string)
    ensures |h| == width && forall i | 0 <= i < width :: IsHexDigit(h[i])
  {
    if width == 0 then [] else Hex(n / 16, width - 1) + [HexChar(n % 16)]
  }

  /** A number computed from every character of `s`. */
  function Fingerprint(s: string): nat {
    if s == [] then 0 else (Fingerprint(s[..|s| - 1]) * 131 + s[|s| - 1] as int) % 0x1_0000_0000_0000
  }

  /**
   * Stands for `hashlib.md5(s.encode()).hexdigest()[:12]`: twelve lowercase
   * hexadecimal digits determined by `s`. Which digest it is plays no part
   * in the model.
   */
  function Digest12(s: string): (h: string)
    ensures |h| == 12 && forall i | 0 <= i < 12 :: IsHexDigit(h[i])
  {
    Hex(Fingerprint(s), 12)
  }

  /** `generate_client_id(firm_name, client_name)`. */
  function GenerateClientId(firm: string, client: string): (id: string)
    ensures |id| == 12 && forall i | 0 <= i < 12 :: IsHexDigit(id[i])
  {
    Digest12(NormalizeFirmName(firm) + ":" + NormalizeFirmName(client))
  }

  /** The key depends on the names only through their normal forms. */
  lemma ClientIdOfNormalForms(f1: string, c1: string, f2: string, c2: string)
    requires NormalizeFirmName(f1) == NormalizeFirmName(f2) && NormalizeFirmName(c1) == NormalizeFirmName(c2)
    ensures GenerateClientId(f1, c1) == GenerateClientId(f2, c2)
  {
  }

  lemma NoColon(y: string)
    requires IsNormalName(y)
    ensures ':' !in y
  {
  }

  /**
   * Normal names contain no colon, so the hashed text determines both
   * names: two pairs hash the same text only if their normal forms agree.
   */
  lemma CombinedTextInjective(f1: string, c1: string, f2: string, c2: string)
    requires NormalizeFirmName(f1) + ":" + NormalizeFirmName(c1) == NormalizeFirmName(f2) + ":" + NormalizeFirmName(c2)
    ensures NormalizeFirmName(f1) == NormalizeFirmName(f2) && NormalizeFirmName(c1) == NormalizeFirmName(c2)
  {
    var a, b := NormalizeFirmName(f1), NormalizeFirmName(c1);
    var c, d := NormalizeFirmName(f2), NormalizeFirmName(c2);
    NormalizeFirmNameShape(f1);
    NormalizeFirmNameShape(c1);
    NormalizeFirmNameShape(f2);
    NormalizeFirmNameShape(c2);
    NoColon(a);
    NoColon(b);
    NoColon(c);
    NoColon(d);
    assert a + ":" + b == a + [':'] + b;
    assert c + ":" + d == c + [':'] + d;
    SplitOneSeparator(a, b, ':');
    SplitOneSeparator(c, d, ':');
  }

  // ---------------------------------------------------------------------
  // validate_record
  // ---------------------------------------------------------------------

  /** `validate_record(record)`: both mandatory fields are present and truthy. */
  predicate ValidateRecord(r: Record) {
    Truthy(Get(r, "firm_name")) && Truthy(Get(r, "client_name"))
  }
}
