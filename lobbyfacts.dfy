/**
 * The name handling of `lobbyharvest/src/scrapers/lobbyfacts.py`:
 * cleaning and validating the text of a list item, building the client
 * record, and the accumulation that keeps each valid name once, in the
 * order the page first shows it. The page itself is a parameter: the item
 * texts of the lists found under a "Clients ... financial year" heading,
 * and the item texts of every list on the page.
 */
module Lobbyfacts {
  import opened Common
  import opened Text
  import opened Values
  import KeyedFold

  /** Navigation and interface words; a name containing one (in any case) is not a client. */
  const FilterTerms: seq<string> := [
    "search", "about", "disclaimer", "cabinet", "member", "how to",
    "latest stories", "info", "people", "employment", "transparency",
    "register", "login", "contact", "privacy", "terms", "cookies",
    "home", "menu", "navigation", "footer", "header",
    "categories", "affiliation", "financial data", "eu structures",
    "meetings", "platforms"
  ]

  // ---------------------------------------------------------------------
  // clean_client_name: re.sub(r'\s*\([^)]*\)\s*$', '', text)
  // ---------------------------------------------------------------------

  /** The last index below `n` holding `c`. */
  function LastIndexBefore(s: string, c: char, n: nat): (k: Option<nat>)
    requires n <= |s|
    ensures k.Some? ==> k.value < n && s[k.value] == c && forall j | k.value < j < n :: s[j] != c
    ensures k.None? ==> forall j | 0 <= j < n :: s[j] != c
    decreases n
  {
    if n == 0 then None
    else if s[n - 1] == c then Some(n - 1)
    else LastIndexBefore(s, c, n - 1)
  }

  /** The first index in `[lo, hi)` holding `c`. */
  function FirstIndexIn(s: string, c: char, lo: nat, hi: nat): (k: Option<nat>)
    requires lo <= hi <= |s|
    ensures k.Some? ==> lo <= k.value < hi && s[k.value] == c && forall j | lo <= j < k.value :: s[j] != c
    ensures k.None? ==> forall j | lo <= j < hi :: s[j] != c
    decreases hi - lo
  {
    if lo == hi then None
    else if s[lo] == c then Some(lo)
    else FirstIndexIn(s, c, lo + 1, hi)
  }

  /**
   * The pattern `\s*\([^)]*\)\s*$` matches `t` from index `i` to its end,
   * with the opening parenthesis at `p` and the closing one at `q`.
   */
  predicate ParenMatch(t: string, i: nat, p: nat, q: nat) {
    && i <= p < q < |t|
    && (forall j | i <= j < p :: IsSpace(t[j]))
    && t[p] == '('
    && (forall j | p < j < q :: t[j] != ')')
    && t[q] == ')'
    && (forall j | q < j < |t| :: IsSpace(t[j]))
  }

  predicate MatchesAt(t: string, i: nat) {
    exists p: nat, q: nat | i <= p < q < |t| :: ParenMatch(t, i, p, q)
  }

  /**
   * Where `re.sub` finds its match: the closing parenthesis is the last
   * character that is not whitespace, the opening one is the first `'('`
   * after the `')'` before it, and the match starts with the whitespace
   * run in front of that.
   */
  function TrailingParen(t: string): Option<nat> {
    var e := SpaceRunStart(t, |t|);
    if e == 0 || t[e - 1] != ')' then None
    else
      var q := e - 1;
      var lo := match LastIndexBefore(t, ')', q) case None => 0 case Some(c) => c + 1;
      match FirstIndexIn(t, '(', lo, q)
      case None => None
      case Some(p) => Some(SpaceRunStart(t, p))
  }

  /** `TrailingParen` finds a match, and the leftmost one; it finds none only where there is none. */
  lemma TrailingParenLeftmost(t: string)
    ensures TrailingParen(t).Some? ==> MatchesAt(t, TrailingParen(t).value)
    ensures forall i: nat | MatchesAt(t, i) :: TrailingParen(t).Some? && TrailingParen(t).value <= i
  {
    var e := SpaceRunStart(t, |t|);
    if TrailingParen(t).Some? {
      var q := e - 1;
      var lo := match LastIndexBefore(t, ')', q) case None => 0 case Some(c) => c + 1;
      var p := FirstIndexIn(t, '(', lo, q).value;
      assert ParenMatch(t, SpaceRunStart(t, p), p, q);
    }
    forall i: nat | MatchesAt(t, i) ensures TrailingParen(t).Some? && TrailingParen(t).value <= i {
      var p', q' :| ParenMatch(t, i, p', q');
      MatchIsLeftmost(t, i, p', q');
    }
  }

  lemma MatchIsLeftmost(t: string, i: nat, p': nat, q': nat)
    requires ParenMatch(t, i, p', q')
    ensures TrailingParen(t).Some? && TrailingParen(t).value <= i
  {
    var e := SpaceRunStart(t, |t|);
    assert !IsSpace(')') && !IsSpace('(');
    assert q' == e - 1;
    var lo := match LastIndexBefore(t, ')', q') case None => 0 case Some(c) => c + 1;
    assert lo <= p';
    var p := FirstIndexIn(t, '(', lo, q').value;
    assert p <= p';
  }

  /** `re.sub(r'\s*\([^)]*\)\s*$', '', t)`: everything from the match on removed. */
  function DropTrailingParen(t: string): (r: string)
    ensures |r| <= |t| && r == t[..|r|]
  {
    match TrailingParen(t)
    case None => t
    case Some(i) => t[..i]
  }

  /** `clean_client_name(text)`. */
  function CleanClientName(text: string): string {
    Strip(DropTrailingParen(Squash(text)))
  }

  /** A single-spaced name followed by one parenthetical comes back as the name. */
  lemma CleanDropsParenthetical(name: string, inner: string)
    requires SingleSpaced(name + " (" + inner + ")") && name != []
    requires '(' !in name && ')' !in name && ')' !in inner
    ensures CleanClientName(name + " (" + inner + ")") == name
  {
    ParenthesisedName(name, inner);
    SquashSingleSpaced(name + " (" + inner + ")");
  }

  /** The example of the project's tests: a subsidiary note is dropped. */
  lemma SubsidiaryDropped()
    ensures CleanClientName("Company (subsidiary)") == "Company"
  {
    assert "Company (subsidiary)" == "Company" + " (" + "subsidiary" + ")";
    CleanDropsParenthetical("Company", "subsidiary");
  }

  lemma ParenthesisedName(name: string, inner: string)
    requires SingleSpaced(name + " (" + inner + ")") && name != []
    requires '(' !in name && ')' !in name && ')' !in inner
    ensures TrailingParen(name + " (" + inner + ")") == Some(|name|)
    ensures DropTrailingParen(name + " (" + inner + ")") == name && Strip(name) == name
  {
    var t := name + " (" + inner + ")";
    var q := |t| - 1;
    ParenthesisedBounds(name, inner);
    assert t[|name|] == ' ' && t[|name| - 1] == name[|name| - 1];
    assert !BlankPair(t, |name| - 1);
    assert !IsSpace(t[|name| - 1]);
    assert SpaceRunStart(t, |name| + 1) == |name|;
    assert t[..|name|] == name;
    StripOfStripped(name);
  }

  /** Where the closing and opening parentheses of such a name are found. */
  lemma ParenthesisedBounds(name: string, inner: string)
    requires name != [] && '(' !in name && ')' !in name && ')' !in inner
    ensures var t := name + " (" + inner + ")";
      && SpaceRunStart(t, |t|) == |t|
      && LastIndexBefore(t, ')', |t| - 1).None?
      && FirstIndexIn(t, '(', 0, |t| - 1) == Some(|name| + 1)
  {
    var t := name + " (" + inner + ")";
    assert t[|t| - 1] == ')';
    var q := |t| - 1;
    assert LastIndexBefore(t, ')', q).None? by {
      forall j | 0 <= j < q ensures t[j] != ')' {
        if j < |name| {
          assert t[j] == name[j];
        } else if j >= |name| + 2 {
          assert t[j] == inner[j - |name| - 2];
        }
      }
    }
    assert FirstIndexIn(t, '(', 0, q) == Some(|name| + 1) by {
      forall j | 0 <= j < |name| ensures t[j] != '(' {
        assert t[j] == name[j];
      }
      assert t[|name|] == ' ' && t[|name| + 1] == '(';
    }
  }

  /** Text without a closing parenthesis at its end keeps everything but its outer whitespace. */
  lemma CleanWithoutParenthetical(text: string)
    requires var t := Squash(text); t == [] || t[|t| - 1] != ')'
    ensures CleanClientName(text) == Squash(text)
  {
    var t := Squash(text);
    if t != [] {
      assert !IsSpace(t[|t| - 1]);
    }
    assert SpaceRunStart(t, |t|) == |t|;
    StripOfStripped(t);
  }

  // ---------------------------------------------------------------------
  // is_valid_client and create_client_record
  // ---------------------------------------------------------------------

  /** `any(c.isalpha() for c in name)`. */
  predicate HasLetter(name: string) {
    exists i | 0 <= i < |name| :: IsLetter(name[i])
  }

  /** `any(term in name.lower() for term in FILTER_TERMS)`. */
  predicate HasFilterTerm(name: string) {
    exists i | 0 <= i < |FilterTerms| :: Contains(Lower(name), FilterTerms[i])
  }

  /** `is_valid_client(name)`. */
  predicate IsValidClient(name: string) {
    if name == [] || |name| < 3 then false
    else if HasFilterTerm(name) then false
    else HasLetter(name) && 5 < |name| < 200
  }

  /**
   * A valid name has between 6 and 199 characters, a letter and no filter
   * term; the test for fewer than three characters is subsumed by the
   * length bound.
   */
  lemma ValidClientBounds(name: string)
    ensures IsValidClient(name) <==> 6 <= |name| <= 199 && HasLetter(name) && !HasFilterTerm(name)
  {
  }

  /** A name holding a filter term in any case is rejected. */
  lemma FilterTermRejects(name: string, i: nat)
    requires i < |FilterTerms| && Contains(Lower(name), FilterTerms[i])
    ensures !IsValidClient(name)
  {
  }

  /** Navigation labels are rejected because they hold a filter term. */
  lemma NavigationRejected()
    ensures !IsValidClient("Search") && !IsValidClient("About")
  {
    assert Lower("Search") == "search";
    ContainsSelf("search");
    FilterTermRejects("Search", 0);
    assert Lower("About") == "about";
    ContainsSelf("about");
    FilterTermRejects("About", 1);
  }

  /** `create_client_record(firm_name, firm_id, client_name)`. */
  function CreateClientRecord(firmName: string, firmId: Option<string>, clientName: string): Record {
    map[
      "firm_name" := Str(firmName),
      "firm_id" := FromOptional(firmId),
      "client_name" := Str(clientName),
      "client_id" := Null,
      "start_date" := Null,
      "end_date" := Null
    ]
  }

  /**
   * A client record has exactly the six fields; the firm, its identifier
   * and the client are passed through, the rest is `None`.
   */
  lemma ClientRecordFields(firmName: string, firmId: Option<string>, clientName: string)
    ensures var r := CreateClientRecord(firmName, firmId, clientName);
      && r.Keys == {"firm_name", "firm_id", "client_name", "client_id", "start_date", "end_date"}
      && r["firm_name"] == Str(firmName) && r["client_name"] == Str(clientName)
      && r["firm_id"] == FromOptional(firmId)
      && r["client_id"] == Null && r["start_date"] == Null && r["end_date"] == Null
  {
  }

  // ---------------------------------------------------------------------
  // The firm identifier: re.search(r'rid=([^&]+)', url)
  // ---------------------------------------------------------------------

  /** Length of the leading run of characters other than `'&'`. */
  function NonAmpRun(s: string): (n: nat)
    ensures n <= |s| && (forall j | 0 <= j < n :: s[j] != '&') && (n < |s| ==> s[n] == '&')
  {
    if s != [] && s[0] != '&' then 1 + NonAmpRun(s[1..]) else 0
  }

  /** `rid=` followed by a character other than `'&'` starts at `p`. */
  predicate RidAt(url: string, p: nat) {
    p + 4 < |url| && url[p..p + 4] == "rid=" && url[p + 4] != '&'
  }

  /** The run of characters other than `'&'` that starts at `k`: the group `([^&]+)`. */
  function RidGroup(url: string, k: nat): string
    requires k <= |url|
  {
    url[k..k + NonAmpRun(url[k..])]
  }

  /** The first match of `rid=([^&]+)` at `p` or later. */
  function RidFrom(url: string, p: nat): Option<string>
    requires p <= |url|
    decreases |url| - p
  {
    if p + 4 >= |url| then None
    else if RidAt(url, p) then Some(RidGroup(url, p + 4))
    else RidFrom(url, p + 1)
  }

  /** `re.search(r'rid=([^&]+)', url)`: the group of the first match, or `None`. */
  function RidOf(url: string): Option<string> {
    RidFrom(url, 0)
  }

  /**
   * The search gives the group of the leftmost `rid=` followed by a
   * character other than `'&'`, and nothing exactly when there is none.
   */
  lemma {:induction false} RidFromMatch(url: string, p: nat)
    requires p <= |url|
    ensures RidFrom(url, p).None? <==> forall q: nat | p <= q :: !RidAt(url, q)
    ensures RidFrom(url, p).Some? ==> exists q: nat | p <= q :: && RidAt(url, q)
                                                            && (forall q': nat | p <= q' < q :: !RidAt(url, q'))
                                                            && RidFrom(url, p).value == RidGroup(url, q + 4)
    decreases |url| - p
  {
    if p + 4 >= |url| {
    } else if RidAt(url, p) {
    } else {
      RidFromMatch(url, p + 1);
      if RidFrom(url, p).Some? {
        var q: nat :| p + 1 <= q && RidAt(url, q) && (forall q': nat | p + 1 <= q' < q :: !RidAt(url, q'))
                      && RidFrom(url, p + 1).value == RidGroup(url, q + 4);
        assert forall q': nat | p <= q' < q :: !RidAt(url, q');
      }
    }
  }

  /** The firm identifier is the whole `[^&]+` run after the first `rid=` that has one. */
  lemma RidOfMatch(url: string)
    ensures RidOf(url).None? <==> forall q: nat :: !RidAt(url, q)
    ensures RidOf(url).Some? ==> exists q: nat :: && RidAt(url, q)
                                                && (forall q': nat | q' < q :: !RidAt(url, q'))
                                                && RidOf(url).value == RidGroup(url, q + 4)
    ensures RidOf(url).Some? ==> RidOf(url).value != [] && '&' !in RidOf(url).value
  {
    RidFromMatch(url, 0);
    if RidOf(url).Some? {
      var q: nat :| RidAt(url, q) && RidOf(url).value == RidGroup(url, q + 4);
      var v := RidGroup(url, q + 4);
      assert url[q + 4..][0] == url[q + 4];
      forall j | 0 <= j < |v| ensures v[j] != '&' {
        assert v[j] == url[q + 4..][j];
      }
    }
  }

  // ---------------------------------------------------------------------
  // The accumulation (lines 56-93)
  // ---------------------------------------------------------------------

  function Itself(s: string): string { s }

  /** The images under `clean` of `items` that pass `valid`, in item order. */
  function Kept(items: seq<string>, clean: string -> string, valid: string -> bool): (names: seq<string>)
    ensures |names| <= |items|
    ensures forall i | 0 <= i < |names| :: valid(names[i])
  {
    if items == [] then []
    else
      var prev := Kept(items[..|items| - 1], clean, valid);
      var name := clean(items[|items| - 1]);
      if valid(name) then prev + [name] else prev
  }

  /** Each kept image once, where it first shows up. */
  function FirstKept(items: seq<string>, clean: string -> string, valid: string -> bool): seq<string> {
    KeyedFold.Dedup(Kept(items, clean, valid), Itself)
  }

  /** The cleaned names of `items` that pass `is_valid_client`, in item order. */
  function Accepted(items: seq<string>): seq<string> {
    Kept(items, CleanClientName, IsValidClient)
  }

  /** The client names the scraper keeps: each accepted name once, where it first shows up. */
  function ClientNames(items: seq<string>): seq<string> {
    FirstKept(items, CleanClientName, IsValidClient)
  }

  /** The records for `names`, in order. */
  function Records(firmName: string, firmId: Option<string>, names: seq<string>): (rs: seq<Record>)
    ensures |rs| == |names|
    ensures forall i | 0 <= i < |names| :: rs[i] == CreateClientRecord(firmName, firmId, names[i])
  {
    if names == [] then []
    else Records(firmName, firmId, names[..|names| - 1]) + [CreateClientRecord(firmName, firmId, names[|names| - 1])]
  }

  function NameSet(names: seq<string>): set<string> {
    set n | n in names
  }

  lemma {:induction false} KeysItself(xs: seq<string>)
    ensures KeyedFold.Keys(xs, Itself) == xs
  {
  }

  /** One more item: its image joins the list when it is valid and not yet seen. */
  lemma FirstKeptStep(items: seq<string>, item: string, clean: string -> string, valid: string -> bool)
    ensures var names := FirstKept(items, clean, valid);
      FirstKept(items + [item], clean, valid) ==
        if valid(clean(item)) && clean(item) !in NameSet(names) then names + [clean(item)] else names
  {
    var xs := items + [item];
    assert xs[..|xs| - 1] == items;
    var acc := Kept(items, clean, valid);
    KeyedFold.DedupKeys(acc, Itself);
    KeysItself(acc);
    KeysItself(FirstKept(items, clean, valid));
    if valid(clean(item)) {
      var acc' := acc + [clean(item)];
      assert acc'[..|acc'| - 1] == acc;
    }
  }

  lemma {:induction false} KeptFrom(items: seq<string>, n: string, clean: string -> string, valid: string -> bool)
    requires n in Kept(items, clean, valid)
    ensures exists i | 0 <= i < |items| :: clean(items[i]) == n
  {
    var init := items[..|items| - 1];
    if n in Kept(init, clean, valid) {
      KeptFrom(init, n, clean, valid);
      var i :| 0 <= i < |init| && clean(init[i]) == n;
      assert items[i] == init[i];
    } else {
      assert clean(items[|items| - 1]) == n;
    }
  }

  lemma {:induction false} KeptHas(items: seq<string>, i: nat, clean: string -> string, valid: string -> bool)
    requires i < |items| && valid(clean(items[i]))
    ensures clean(items[i]) in Kept(items, clean, valid)
  {
    var init := items[..|items| - 1];
    if i < |init| {
      KeptHas(init, i, clean, valid);
      assert items[i] == init[i];
    }
  }

  /**
   * Lines 68-72 and 89-93: the items of one list offered to `seen_clients`
   * and `clients`, for any cleaning function and validity test.
   */
  method AddItems(firmName: string, firmId: Option<string>, ghost before: seq<string>, items: seq<string>,
                  seen: set<string>, clients: seq<Record>, clean: string -> string, valid: string -> bool)
    returns (seen': set<string>, clients': seq<Record>)
    requires seen == NameSet(FirstKept(before, clean, valid))
    requires clients == Records(firmName, firmId, FirstKept(before, clean, valid))
    ensures seen' == NameSet(FirstKept(before + items, clean, valid))
    ensures clients' == Records(firmName, firmId, FirstKept(before + items, clean, valid))
  {
    seen', clients' := seen, clients;
    assert before + items[..0] == before;
    for i := 0 to |items|
      invariant seen' == NameSet(FirstKept(before + items[..i], clean, valid))
      invariant clients' == Records(firmName, firmId, FirstKept(before + items[..i], clean, valid))
    {
      assert before + items[..i + 1] == (before + items[..i]) + [items[i]];
      seen', clients' := Offer(firmName, firmId, before + items[..i], items[i], seen', clients', clean, valid);
    }
    assert items[..|items|] == items;
  }

  /** Lines 69-72: one item's cleaned name recorded unless it is invalid or seen already. */
  method Offer(firmName: string, firmId: Option<string>, ghost before: seq<string>, item: string,
               seen: set<string>, clients: seq<Record>, clean: string -> string, valid: string -> bool)
    returns (seen': set<string>, clients': seq<Record>)
    requires seen == NameSet(FirstKept(before, clean, valid))
    requires clients == Records(firmName, firmId, FirstKept(before, clean, valid))
    ensures seen' == NameSet(FirstKept(before + [item], clean, valid))
    ensures clients' == Records(firmName, firmId, FirstKept(before + [item], clean, valid))
  {
    FirstKeptStep(before, item, clean, valid);
    seen', clients' := seen, clients;
    var clientName := clean(item);
    if valid(clientName) && clientName !in seen {
      ghost var names := FirstKept(before, clean, valid);
      assert (names + [clientName])[..|names|] == names;
      seen' := seen + {clientName};
      clients' := clients + [CreateClientRecord(firmName, firmId, clientName)];
    }
  }

  /** What the scraper reads off a fetched page. */
  datatype Page = Page(headerLists: seq<seq<string>>, allLists: seq<seq<string>>)

  /** How many of `items` pass `valid` as they are, before cleaning. */
  function CountValid(items: seq<string>, valid: string -> bool): (n: nat)
    ensures n <= |items|
  {
    if items == [] then 0
    else CountValid(items[..|items| - 1], valid) + (if valid(items[|items| - 1]) then 1 else 0)
  }

  /** Lines 81-88: a list of at least five items, three of whose first five look like clients. */
  predicate LooksLikeClientList(items: seq<string>, valid: string -> bool) {
    |items| >= 5 && CountValid(items[..5], valid) >= 3
  }

  /** The items of `lists`, one list after another. */
  function Flatten(lists: seq<seq<string>>): seq<string> {
    if lists == [] then [] else Flatten(lists[..|lists| - 1]) + lists[|lists| - 1]
  }

  /** The items of the lists that look like client lists, one list after another. */
  function Selected(lists: seq<seq<string>>, valid: string -> bool): seq<string> {
    if lists == [] then []
    else
      var last := lists[|lists| - 1];
      Selected(lists[..|lists| - 1], valid) + (if LooksLikeClientList(last, valid) then last else [])
  }

  /** Every item offered to the accumulation, in the order the two strategies offer them. */
  function ScannedItems(page: Page): seq<string> {
    Flatten(page.headerLists) + Selected(page.allLists, IsValidClient)
  }

  /** Lines 56-93: both strategies feeding one `seen_clients` set and one `clients` list. */
  method Accumulate(firmName: string, firmId: Option<string>, page: Page, clean: string -> string, valid: string -> bool)
    returns (clients: seq<Record>)
    ensures clients == Records(firmName, firmId, FirstKept(Flatten(page.headerLists) + Selected(page.allLists, valid), clean, valid))
  {
    var headerLists, allLists := page.headerLists, page.allLists;
    var seen: set<string> := {};
    clients := [];
    ghost var offered: seq<string> := [];
    assert NameSet([]) == {};
    for j := 0 to |headerLists|
      invariant offered == Flatten(headerLists[..j])
      invariant seen == NameSet(FirstKept(offered, clean, valid))
      invariant clients == Records(firmName, firmId, FirstKept(offered, clean, valid))
    {
      assert headerLists[..j + 1][..j] == headerLists[..j];
      seen, clients := AddItems(firmName, firmId, offered, headerLists[j], seen, clients, clean, valid);
      offered := offered + headerLists[j];
    }
    assert headerLists[..|headerLists|] == headerLists;
    ghost var first := offered;
    assert first + Selected(allLists[..0], valid) == first;
    for j := 0 to |allLists|
      invariant offered == first + Selected(allLists[..j], valid)
      invariant seen == NameSet(FirstKept(offered, clean, valid))
      invariant clients == Records(firmName, firmId, FirstKept(offered, clean, valid))
    {
      assert allLists[..j + 1][..j] == allLists[..j];
      var items := allLists[j];
      if |items| >= 5 {
        var validSamples := CountValid(items[..5], valid);
        if validSamples >= 3 {
          seen, clients := AddItems(firmName, firmId, offered, items, seen, clients, clean, valid);
          offered := offered + items;
        }
      }
    }
    assert allLists[..|allLists|] == allLists;
  }

  /**
   * `scrape_lobbyfacts(firm_name, url)`: no URL, or a failed request
   * (`page` is `None`), gives no records; otherwise one record per kept
   * name, with the firm identifier taken from the URL.
   */
  method ScrapeLobbyfacts(firmName: string, url: Option<string>, page: Option<Page>) returns (clients: seq<Record>)
    ensures url.None? || url.value == [] || page.None? ==> clients == []
    ensures url.Some? && url.value != [] && page.Some? ==>
      clients == Records(firmName, RidOf(url.value), ClientNames(ScannedItems(page.value)))
  {
    if url.None? || url.value == [] {
      return [];
    }
    if page.None? {
      return [];
    }
    var firmId := RidOf(url.value);
    clients := Accumulate(firmName, firmId, page.value, CleanClientName, IsValidClient);
  }

  // ---------------------------------------------------------------------
  // What the kept names are
  // ---------------------------------------------------------------------

  /** No name is kept twice. */
  lemma ClientNamesDistinct(items: seq<string>)
    ensures KeyedFold.Distinct(ClientNames(items))
  {
    KeyedFold.DedupDistinct(Accepted(items), Itself);
    KeysItself(ClientNames(items));
  }

  /** Every kept name is valid and is the cleaned text of some item. */
  lemma ClientNamesValid(items: seq<string>, n: string)
    requires n in ClientNames(items)
    ensures IsValidClient(n)
    ensures exists i | 0 <= i < |items| :: CleanClientName(items[i]) == n
  {
    var acc := Accepted(items);
    KeyedFold.DedupKeys(acc, Itself);
    KeysItself(acc);
    KeysItself(ClientNames(items));
    KeptFrom(items, n, CleanClientName, IsValidClient);
  }

  /** Every item whose cleaned text is valid has that name kept. */
  lemma ClientNamesComplete(items: seq<string>, i: nat)
    requires i < |items| && IsValidClient(CleanClientName(items[i]))
    ensures CleanClientName(items[i]) in ClientNames(items)
  {
    var acc := Accepted(items);
    KeptHas(items, i, CleanClientName, IsValidClient);
    KeyedFold.DedupKeys(acc, Itself);
    KeysItself(acc);
    KeysItself(ClientNames(items));
  }

  /** The kept names come in the order in which the accepted names first appear. */
  lemma ClientNamesOrder(items: seq<string>)
    ensures KeyedFold.FirstSeenOrder(ClientNames(items), Accepted(items))
  {
    KeyedFold.DedupOrder(Accepted(items), Itself);
    KeysItself(Accepted(items));
    KeysItself(ClientNames(items));
  }
}
