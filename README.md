# lobbyharvest: a Dafny model of the record-normalising core

lobbyharvest collects "which lobbying firm represents which client" records
from several national registers and merges them into one list. This project
models, in Dafny, the parts of it that turn scraped text into records and
records into the merged list:

- `lobbyharvest/src/utils/normalize.py`:
  - firm-name normalisation;
  - date normalisation;
  - the client key;
  - record validation;
  - the merge of duplicate records.
- `lobbyharvest/src/aggregator.py`: the filter-then-merge step.
- The pure helpers of the register scrapers:
  - the Cyprus firm matcher, date normaliser and client-cell splitter;
  - the Lobbyfacts name cleaner, validity test and accumulation of client names;
  - the UK lobbying JSON readers;
  - the FARA, Austrian and Italian date readers;
  - the Italian de-duplication;
  - the UK ORCL and French HATVP table and text scanners.

Shared pieces:

- **Records** are dicts from field names to JSON-like values (`Values.Value`).
- **Python's `str` behaviour** lives in the `Text` module. This covers `strip`, `split`, `lower`/`upper`, `in`, `int()` and string ordering.
- **`datetime.strptime`** is a backtracking matcher in the `Strptime` module. It works over the tokens CPython compiles each format into.
- **`generate_client_id` and `merge_client_records`** rest on a generic insertion-ordered dict fold, `KeyedFold`.

Modelling conventions:

- Where the Python code loops over a list and updates local state, the model is a `method` with a loop. That method is proved equal to a recursive specification function, and the properties are proved as lemmas about that function.
- A raised exception is modelled as `None` or as `Raises`.
- Browser, HTTP and page access are replaced by parameters holding what the page gave.

## Model

| member | source | states |
|---|---|---|
| Normalize.NormalizeFirmNameShape | lobbyharvest/src/utils/normalize.py:6-14 | the normalised name consists of upper-case word characters joined by single blanks, with no blank at either end; a falsy name gives `""` |
| Normalize.StripCorporateSuffixOf | lobbyharvest/src/utils/normalize.py:11 | one corporate suffix word at the end, after whitespace and with or without one dot, is cut off together with all the whitespace before it |
| Normalize.TrailingBlankKeepsSuffix | lobbyharvest/src/utils/normalize.py:11 | the `$` anchor fails when whitespace other than one final newline follows the suffix, so nothing is cut |
| Normalize.StripCorporateSuffixSource | lobbyharvest/src/utils/normalize.py:11 | every character left by the suffix pass is a character of the input at some position |
| Normalize.KeepSource | lobbyharvest/src/utils/normalize.py:12 | the punctuation pass keeps only word characters and whitespace of the input |
| Normalize.SuffixInsensitive | lobbyharvest/src/utils/normalize.py:10-14 | adding a suffix word in any case, with or without a dot, after any whitespace, does not change the normalised name of a name without a suffix of its own |
| Normalize.NormalizeFirmNameFixpoint | lobbyharvest/src/utils/normalize.py:6-14 | a name already in normal form and without a suffix is returned unchanged |
| Normalize.NormalizeSuffixed | lobbyharvest/src/utils/normalize.py:11-13 | a normal name followed by a blank and a suffix word normalises to the name |
| Normalize.NotIdempotent | lobbyharvest/src/utils/normalize.py:11 | `"X INC LTD"` normalises to `"X INC"`, and that normalises again to `"X"`: a second call can change the result |
| Normalize.TrailingBlankExample | lobbyharvest/src/utils/normalize.py:10-13 | `"Acme Inc "` keeps its suffix: the trailing blank hides it from the pattern, and only the final whitespace pass removes the blank |
| Normalize.NormalizeDate | lobbyharvest/src/utils/normalize.py:16-38 | the result is `None` exactly for `None` or `""`, and is never the empty string otherwise |
| Normalize.NormalizeDateFirstMatch | lobbyharvest/src/utils/normalize.py:21-35 | the first of the eight formats, in source order, that parses the stripped text decides the ISO result |
| Normalize.NormalizeDateFallback | lobbyharvest/src/utils/normalize.py:38 | text no format parses comes back exactly as given, unstripped |
| Normalize.NormalizeDateResult | lobbyharvest/src/utils/normalize.py:32-38 | every result is the ISO rendering of a valid date or the input itself |
| Normalize.NormalizeIso | lobbyharvest/src/utils/normalize.py:32-35 | an ISO rendering of a valid date normalises to itself |
| Normalize.NormalizeDateIdempotent | lobbyharvest/src/utils/normalize.py:16-38 | normalising a normalised date changes nothing |
| Normalize.NormalizeDayFirst | lobbyharvest/src/utils/normalize.py:23-24 | `%d/%m/%Y` is tried before `%m/%d/%Y`: every slashed date reads day first whenever that names a real day |
| Normalize.DayFirst | lobbyharvest/src/utils/normalize.py:23 | `"03/04/2023"` normalises to `"2023-04-03"` |
| Normalize.IsoRejectsNonDigit | lobbyharvest/src/utils/normalize.py:22 | `%Y-%m-%d` cannot read text with a non-digit among its first four characters |
| Normalize.Digest12 | lobbyharvest/src/utils/normalize.py:43 | the digest text is twelve lowercase hexadecimal digits |
| Normalize.GenerateClientId | lobbyharvest/src/utils/normalize.py:40-43 | the client id is twelve lowercase hexadecimal digits |
| Normalize.ClientIdOfNormalForms | lobbyharvest/src/utils/normalize.py:42 | two name pairs with equal normal forms get the same id |
| Normalize.CombinedTextInjective | lobbyharvest/src/utils/normalize.py:42 | normal names hold no colon, so the hashed text `firm:client` determines both normal forms |
| Merge.ReconcileDates | lobbyharvest/src/utils/normalize.py:58-70 | one date field of the canonical record after an absorb: both dates present gives the smaller (start) or larger (end) normalised date, an incoming date alone is adopted, and otherwise the field is kept |
| Merge.MergeIds | lobbyharvest/src/utils/normalize.py:73-75 | the identifier loop fills each of the three identifier fields from the incoming record only when the canonical one is falsy |
| Merge.AbsorbRecord | lobbyharvest/src/utils/normalize.py:56-75 | the canonical record after one absorb is the reconciled start, then end, then the filled identifiers |
| Merge.MergeClientRecords | lobbyharvest/src/utils/normalize.py:45-77 | the loop builds the insertion-ordered dict of the fold: new keys appended, repeated keys absorbed; it needs text names on every record and text dates only on records whose key repeats |
| Merge.AbsorbDate | lobbyharvest/src/utils/normalize.py:58-70 | after an absorb, each date field is that field reconciled alone |
| Merge.AbsorbOthers | lobbyharvest/src/utils/normalize.py:56-75 | an absorb changes nothing but the two dates and the identifier fields |
| Merge.AbsorbId | lobbyharvest/src/utils/normalize.py:73-75 | a truthy identifier is kept; a falsy one takes the incoming truthy value |
| Merge.AbsorbAllOthers | lobbyharvest/src/utils/normalize.py:52-75 | over all records of one key, every field other than dates and identifiers is the first record's |
| Merge.AbsorbAllId | lobbyharvest/src/utils/normalize.py:73-75 | over all records of one key, an identifier ends as the value of the first record that has it truthy |
| Merge.AbsorbAllIdMissing | lobbyharvest/src/utils/normalize.py:73-75 | an identifier no record of the key has stays as the first record left it |
| Merge.AbsorbAllDate | lobbyharvest/src/utils/normalize.py:58-70 | over all records of one key, a date field keeps the first record's raw value until a later record carries a date, and from then on holds the earliest start (latest end) of all the key's normalised dates |
| Merge.MergedRecord | lobbyharvest/src/utils/normalize.py:47-77 | output record `i` is the first record of the `i`-th key when that key occurs once, and that key's records absorbed in input order otherwise |
| Merge.BaseFieldsKept | lobbyharvest/src/utils/normalize.py:52-77 | each output record carries the names and other non-date, non-identifier fields of the first input record with its key |
| Merge.MergedDates | lobbyharvest/src/utils/normalize.py:52-70 | the dates of output record `i`: a lone record's own value, or the earliest start and latest end of its key's records once a later record carries a date |
| Merge.LoneRecordKept | lobbyharvest/src/utils/normalize.py:50-77 | a single record with text names, whatever its dates hold, is safe to merge and comes back unchanged |
| Merge.OrderMatters | lobbyharvest/src/utils/normalize.py:58-63 | the merge depends on input order: a first record's date is normalised only when a later record of the key has a date |
| Merge.SameNamesMerged | lobbyharvest/src/utils/normalize.py:50-56 | two records with the same names come out as one absorbed record |
| KeyedFold.FoldOrder | lobbyharvest/src/utils/normalize.py:52-77 | the output keys are in the order of their first occurrence in the input |
| KeyedFold.OrderKeys | lobbyharvest/src/utils/normalize.py:50-53 | the output holds exactly the input's keys |
| KeyedFold.FoldGroup | lobbyharvest/src/utils/normalize.py:52-56 | the item stored under a key is the key's group combined in input order |
| KeyedFold.DistinctKeysUnchanged | lobbyharvest/src/utils/normalize.py:52-77 | input without repeated keys comes back unchanged |
| KeyedFold.OutputLength | lobbyharvest/src/utils/normalize.py:77 | there is never more output than input |
| Merge.ValidOnlyPicked | lobbyharvest/src/aggregator.py:78 | the filter keeps every record that passes `validate_record` and nothing else, each once and in input order |
| Merge.MergedNames | lobbyharvest/src/utils/normalize.py:80-82 | each merged record has the names, and so the key, of the first record of its key, so it passes `validate_record` when the inputs do |
| Merge.AggregateValid | lobbyharvest/src/aggregator.py:78-79 | the aggregator raises exactly when the valid records cannot be merged; otherwise every output record is valid, there are no more of them than valid inputs, and every valid input's key has an output record |
| Cyprus.CheckFirmMatch | lobbyharvest/src/scrapers/cyprus_lobbying.py:107-142 | the method returns exactly the three-test predicate: direct containment, Greek FTI spellings, then the suffix-free base |
| Cyprus.FindGreekFti | lobbyharvest/src/scrapers/cyprus_lobbying.py:128-131 | the loop finds a Greek spelling exactly when one occurs in the text |
| Cyprus.RemoveSuffixes | lobbyharvest/src/scrapers/cyprus_lobbying.py:134-137 | the loop removes each suffix word in list order and strips after each removal |
| Cyprus.DirectMatch | lobbyharvest/src/scrapers/cyprus_lobbying.py:118-123 | a firm name contained case-insensitively in the text matches; the empty name matches everything |
| Cyprus.GreekFtiMatch | lobbyharvest/src/scrapers/cyprus_lobbying.py:126-131 | a firm name containing "fti" matches any text containing a Greek spelling |
| Cyprus.BaseMatch | lobbyharvest/src/scrapers/cyprus_lobbying.py:133-142 | when the first two tests fail, the firm matches exactly when its non-empty base occurs in the text |
| Cyprus.FirmBaseUnchanged | lobbyharvest/src/scrapers/cyprus_lobbying.py:134-137 | a stripped name with no suffix word is its own base |
| Cyprus.NormalizeDate | lobbyharvest/src/scrapers/cyprus_lobbying.py:145-176 | the result is empty exactly when the input is |
| Cyprus.DayFirst | lobbyharvest/src/scrapers/cyprus_lobbying.py:159-169 | with any of `.`, `-`, `/` as separators, a first part of at most two characters is the day: `YYYY-MM-DD` with zero-filled month and day |
| Cyprus.TwoDigitYear | lobbyharvest/src/scrapers/cyprus_lobbying.py:167-168 | a two-digit year below 50 is in the 2000s; any other two-digit year is in the 1900s |
| Cyprus.YearFirst | lobbyharvest/src/scrapers/cyprus_lobbying.py:170-172 | a first part longer than two characters is the year |
| Cyprus.Fallback | lobbyharvest/src/scrapers/cyprus_lobbying.py:163-176 | any other shape gives the separator-replaced text, not the original |
| Cyprus.SplitClients | lobbyharvest/src/scrapers/cyprus_lobbying.py:80-97 | the loop over the cell's lines builds one record per kept line, in line order |
| Cyprus.ClientRecordsFromLines | lobbyharvest/src/scrapers/cyprus_lobbying.py:84-97 | every record is the client record of a kept line's cleaned name, and every kept name is long enough and comes from some line |
| Cyprus.KeptLinesGiveRecords | lobbyharvest/src/scrapers/cyprus_lobbying.py:84-97 | every line with a long enough cleaned name gives its record |
| Cyprus.NumberingDropped | lobbyharvest/src/scrapers/cyprus_lobbying.py:86 | a leading `N.` and the whitespace after it do not reach the client name |
| Lobbyfacts.TrailingParenLeftmost | lobbyharvest/src/scrapers/lobbyfacts.py:103 | the match position found for `\s*\([^)]*\)\s*$` is a match, and the leftmost one; none is found only where there is none |
| Lobbyfacts.CleanDropsParenthetical | lobbyharvest/src/scrapers/lobbyfacts.py:98-104 | a single-spaced name followed by one parenthetical cleans to the name |
| Lobbyfacts.SubsidiaryDropped | lobbyharvest/src/scrapers/lobbyfacts.py:98-104 | `"Company (subsidiary)"` cleans to `"Company"` |
| Lobbyfacts.CleanWithoutParenthetical | lobbyharvest/src/scrapers/lobbyfacts.py:101-104 | text whose squashed form does not end in `)` cleans to its squashed form |
| Lobbyfacts.ValidClientBounds | lobbyharvest/src/scrapers/lobbyfacts.py:106-124 | a name is valid exactly when it has 6 to 199 characters, a letter, and no filter term |
| Lobbyfacts.FilterTermRejects | lobbyharvest/src/scrapers/lobbyfacts.py:112-114 | a name holding any filter term, in any case, is rejected |
| Lobbyfacts.ClientRecordFields | lobbyharvest/src/scrapers/lobbyfacts.py:126-135 | a client record has exactly the six fields; the firm, its id and the client pass through, and the rest are `None` |
| Lobbyfacts.RidOfMatch | lobbyharvest/src/scrapers/lobbyfacts.py:53-54 | the firm id is the whole non-`&` run after the first `rid=` that has one, and there is none when no `rid=` has one |
| Lobbyfacts.Offer | lobbyharvest/src/scrapers/lobbyfacts.py:69-72 | one item's cleaned name is appended and recorded as seen unless it is invalid or already seen |
| Lobbyfacts.AddItems | lobbyharvest/src/scrapers/lobbyfacts.py:68-93 | the items of one list extend the kept names by their new valid cleaned names, in item order |
| Lobbyfacts.Accumulate | lobbyharvest/src/scrapers/lobbyfacts.py:56-93 | both strategies feed one seen set: the result is one record per first-seen valid cleaned name, strategy 1 lists first, then the lists that look like client lists |
| Lobbyfacts.ScrapeLobbyfacts | lobbyharvest/src/scrapers/lobbyfacts.py:23-96 | no URL or no page gives `[]`; otherwise the records of the accumulated names, with the firm id from the URL |
| Lobbyfacts.ClientNamesDistinct | lobbyharvest/src/scrapers/lobbyfacts.py:57-71 | no client name is kept twice |
| Lobbyfacts.ClientNamesValid | lobbyharvest/src/scrapers/lobbyfacts.py:69-70 | every kept name is valid and is the cleaned text of some offered item |
| Lobbyfacts.ClientNamesComplete | lobbyharvest/src/scrapers/lobbyfacts.py:69-72 | every offered item whose cleaned text is valid has that name kept |
| Lobbyfacts.ClientNamesOrder | lobbyharvest/src/scrapers/lobbyfacts.py:56-93 | kept names are in the order of their first acceptance |
| UkLobbying.ExtractClientFromJson | lobbyharvest/src/scrapers/uk_lobbying.py:118-137 | the loop over the name fields and the record literal give exactly the modelled outcome, including a raise for non-container items |
| UkLobbying.FirstPresentDecides | lobbyharvest/src/scrapers/uk_lobbying.py:121-125 | in a dict the first name field present decides the name |
| UkLobbying.ExtractFirstPresent | lobbyharvest/src/scrapers/uk_lobbying.py:121-128 | a dict gives a record exactly when its first present name field is truthy; a later field is never consulted |
| UkLobbying.ExtractNoName | lobbyharvest/src/scrapers/uk_lobbying.py:127-128 | a dict without any name field gives `None` |
| UkLobbying.ExtractDictReturns | lobbyharvest/src/scrapers/uk_lobbying.py:118-137 | a dict item never raises |
| UkLobbying.ExtractScalarRaises | lobbyharvest/src/scrapers/uk_lobbying.py:122-123 | a `None`, number or boolean item raises at the first `in` test |
| UkLobbying.CamelCaseFirst | lobbyharvest/src/scrapers/uk_lobbying.py:130-137 | the record has the six fields; each optional field takes the camelCase key when present, even with `None`, and the snake_case key otherwise |
| UkLobbying.ParseList | lobbyharvest/src/scrapers/uk_lobbying.py:100-105 | the loop over a list answer builds the list of records of its dict items |
| UkLobbying.ParseDictItems | lobbyharvest/src/scrapers/uk_lobbying.py:110-113 | the loop over a dict answer's list builds its records, and an item that raises ends the call |
| UkLobbying.ParseJsonResults | lobbyharvest/src/scrapers/uk_lobbying.py:95-116 | a list answer gives its dict items' records; a dict answer reads the list under the first result key holding one; anything else gives `[]` |
| UkLobbying.FromDictItemsPicked | lobbyharvest/src/scrapers/uk_lobbying.py:106-114 | a dict answer's list raises exactly when one of its items raises; otherwise it gives, in order, one record per item whose extraction gives a record, none skipped or repeated |
| UkLobbying.FromListItemsPicked | lobbyharvest/src/scrapers/uk_lobbying.py:100-105 | a list answer is, in order, one record per dict item whose extraction gives a record, with none skipped or repeated |
| UkLobbying.FromListItemsFrom | lobbyharvest/src/scrapers/uk_lobbying.py:101-105 | every record of a list answer comes from one of its dict items |
| UkLobbying.FromListItemsHas | lobbyharvest/src/scrapers/uk_lobbying.py:101-105 | every dict item that yields a record has it in the answer |
| UkLobbying.FirstListKeyFirst | lobbyharvest/src/scrapers/uk_lobbying.py:108-114 | only the first result key holding a list is read |
| UkLobbying.OtherShapesEmpty | lobbyharvest/src/scrapers/uk_lobbying.py:106-116 | other answers, and dicts without a list under a result key, give no records |
| UkLobbying.NullItemRaises | lobbyharvest/src/scrapers/uk_lobbying.py:110-113 | a `None` item in a dict answer's list makes the call raise |
| Fara.ParseDate | lobbyharvest/src/scrapers/fara.py:197-222 | `None` for the empty string; any answer is an ISO-shaped date or the input itself |
| Fara.ParseDateFirstMatch | lobbyharvest/src/scrapers/fara.py:202-214 | the first of the six formats that reads the stripped text decides the ISO result |
| Fara.ParseDateFallback | lobbyharvest/src/scrapers/fara.py:218-222 | when no format reads it, the raw text is kept exactly when its start looks like a date |
| Fara.ParseDateResult | lobbyharvest/src/scrapers/fara.py:211-222 | every result is the ISO rendering of a valid date or the input itself |
| Fara.ParseDateMonthFirst | lobbyharvest/src/scrapers/fara.py:203 | `MM/DD/YYYY` reads month first |
| Fara.ParseDateIso | lobbyharvest/src/scrapers/fara.py:204 | a rendered date reads back as itself |
| Fara.ParseDateIdempotent | lobbyharvest/src/scrapers/fara.py:197-222 | reading a result again gives the same result |
| Fara.ParseDateWorded | lobbyharvest/src/scrapers/fara.py:205 | `January 15, 2023`, for any month and day, reads as its ISO form |
| Fara.ParseDateAbbreviated | lobbyharvest/src/scrapers/fara.py:208 | `15-Jan-2023`, for any month and day, reads as its ISO form |
| Fara.ParseDateRejects | lobbyharvest/src/scrapers/fara.py:211-222 | text starting with neither a digit, whitespace nor a month initial gives `None` |
| Fara.MonthOverTwelveKept | lobbyharvest/src/scrapers/fara.py:219-220 | a slashed date with a first field above 12, such as `13/45/2023`, comes back unchanged |
| Fara.Jan15Examples | lobbyharvest/src/scrapers/fara.py:203-204 | `01/15/2023` and `2023-01-15` both read as `2023-01-15` |
| Fara.Jan15Named | lobbyharvest/src/scrapers/fara.py:205-208 | `January 15, 2023` and `15-Jan-2023` read as `2023-01-15` |
| Fara.InvalidRejected | lobbyharvest/src/scrapers/fara.py:218-222 | a word that is not a date gives `None` |
| Austrian.ParseGermanDate | lobbyharvest/src/scrapers/austrian_lobbying.py:203-228 | `None` exactly for the empty string; otherwise an ISO date or the stripped input |
| Austrian.GermanFirstMatch | lobbyharvest/src/scrapers/austrian_lobbying.py:211-223 | the first of the six formats that reads the stripped text decides |
| Austrian.GermanFallback | lobbyharvest/src/scrapers/austrian_lobbying.py:227-228 | text no format reads comes back stripped, never `None` |
| Austrian.GermanResult | lobbyharvest/src/scrapers/austrian_lobbying.py:220-228 | every result is the ISO rendering of a valid date or the stripped input |
| Austrian.GermanDotted | lobbyharvest/src/scrapers/austrian_lobbying.py:212 | a dotted day-first date reads as that day |
| Austrian.GermanSlashed | lobbyharvest/src/scrapers/austrian_lobbying.py:214 | a slashed day-first date misses the dotted formats and reads as that day |
| Austrian.GermanIso | lobbyharvest/src/scrapers/austrian_lobbying.py:215 | an ISO date comes back unchanged |
| Austrian.GermanDashed | lobbyharvest/src/scrapers/austrian_lobbying.py:217 | a dashed day-first date misses every earlier format and reads as that day |
| Austrian.GermanIdempotent | lobbyharvest/src/scrapers/austrian_lobbying.py:203-228 | reading a result again gives the same result |
| Austrian.GermanBlank | lobbyharvest/src/scrapers/austrian_lobbying.py:205-228 | whitespace-only text gives `""`, not `None` |
| Austrian.GermanExample | lobbyharvest/src/scrapers/austrian_lobbying.py:212 | `31.12.2024` becomes `2024-12-31` |
| Italian.ParseItalianDate | lobbyharvest/src/scrapers/italian_lobbying.py:163-193 | `None` for the empty string; any result is ISO-shaped and differs from the input |
| Italian.ItalianSlashed | lobbyharvest/src/scrapers/italian_lobbying.py:170-180 | three slash-separated parts that `int()` reads as a real date give it in ISO form, whatever whitespace surrounds them |
| Italian.ItalianSlashedInvalid | lobbyharvest/src/scrapers/italian_lobbying.py:173-193 | a `/` and no real date gives `None` |
| Italian.ItalianRoundTrip | lobbyharvest/src/scrapers/italian_lobbying.py:173-180 | `DD/MM/YYYY` of any date reads back as that date |
| Italian.ItalianYear | lobbyharvest/src/scrapers/italian_lobbying.py:185-189 | a four-digit year from 1900 to 2100 gives its January 1st; other four-digit numbers give `None` |
| Italian.ItalianRejectsIso | lobbyharvest/src/scrapers/italian_lobbying.py:163-193 | an ISO date is not accepted |
| Italian.UniqueClients | lobbyharvest/src/scrapers/italian_lobbying.py:152-161 | the `seen` loop keeps the first record of each name: distinct names, the same name set, in first-seen order |
| Italian.FromSetKeepsAll | lobbyharvest/src/scrapers/italian_lobbying.py:138-161 | records built from a set of names lose nothing in the de-duplication |
| UkOrcl.MapRow | lobbyharvest/src/scrapers/uk_orcl.py:89-108 | the header loop fills each field from the stripped cell of the last header that feeds it |
| UkOrcl.MappedRowStep | lobbyharvest/src/scrapers/uk_orcl.py:99-108 | one more header sends its cell to the field its column feeds |
| UkOrcl.CollectRows | lobbyharvest/src/scrapers/uk_orcl.py:83-111 | rows with cells and a non-empty client name give their records, in row order |
| UkOrcl.TableRecordsNamed | lobbyharvest/src/scrapers/uk_orcl.py:110-111 | every kept row names a client |
| UkOrcl.NoClientHeaderNoRecords | lobbyharvest/src/scrapers/uk_orcl.py:99-104 | a table without a "client" header gives no records |
| UkOrcl.ScanSection | lobbyharvest/src/scrapers/uk_orcl.py:120-146 | the line scan appends the records of the text's client lines to the results |
| UkOrcl.ScanOneLine | lobbyharvest/src/scrapers/uk_orcl.py:124-143 | one line advances the scanner's state by one step |
| UkOrcl.ScanCountsClients | lobbyharvest/src/scrapers/uk_orcl.py:120-146 | one record per client line, in order, each built from the entry that line opens and named by it |
| UkOrcl.NoClientLineNoRecords | lobbyharvest/src/scrapers/uk_orcl.py:127-146 | without a client line nothing is emitted |
| FrenchHatvp.RowRecord | lobbyharvest/src/scrapers/french_hatvp.py:71-98 | a row is kept exactly when its text has a keyword, it has cells and its stripped first cell is non-empty; the dates come from the second cell |
| FrenchHatvp.DateRange | lobbyharvest/src/scrapers/french_hatvp.py:89-93 | a cell with one dash splits into stripped start and end dates |
| FrenchHatvp.ManyDashes | lobbyharvest/src/scrapers/french_hatvp.py:94-95 | a cell with two or more dashes is all start date |
| FrenchHatvp.IsoRangeNotSplit | lobbyharvest/src/scrapers/french_hatvp.py:89-95 | a range of ISO dates is never split |
| FrenchHatvp.ScanSection | lobbyharvest/src/scrapers/french_hatvp.py:104-125 | the line scan appends the records of the selected lines to the results |
| FrenchHatvp.ScanOneLine | lobbyharvest/src/scrapers/french_hatvp.py:110-125 | one line advances the scanner's state by one step |
| FrenchHatvp.ScanIsSelected | lobbyharvest/src/scrapers/french_hatvp.py:106-125 | the scanner emits exactly the candidate lines inside a client section, in line order |
| FrenchHatvp.SelectedInSection | lobbyharvest/src/scrapers/french_hatvp.py:111-125 | each emitted name has an opener before it and no closer in between |
| FrenchHatvp.NoOpenerNoRecords | lobbyharvest/src/scrapers/french_hatvp.py:111-112 | text without "mandant" or "client" emits nothing |
| Strptime.IsoRoundTrip | lobbyharvest/src/utils/normalize.py:32-35 | `strptime` of a date's `%Y-%m-%d` rendering gives the date back |
| Strptime.DmyRoundTrip | lobbyharvest/src/scrapers/austrian_lobbying.py:212-217 | `strptime` of a date's `%d<sep>%m<sep>%Y` rendering gives the date back |
| Strptime.MdyRoundTrip | lobbyharvest/src/scrapers/fara.py:203-207 | `strptime` of a date's `%m<sep>%d<sep>%Y` rendering gives the date back |
| Strptime.FirstParseAt | lobbyharvest/src/utils/normalize.py:32-37 | the format loop returns the first format that parses |
| Calendar.IsoOrder | lobbyharvest/src/utils/normalize.py:61-68 | ISO renderings compare as strings in calendar order, so `min`/`max` pick the earlier or later date |

## Left out

- The browser, HTTP and page-query code of every scraper is not modelled. That covers Playwright, requests, BeautifulSoup, `client_sections`, the search forms and the choice between tables and divs. What the page gave enters as parameters.
- Only `parse_german_date` is modelled from `austrian_lobbying.py`, and only its date reading from the other scrapers' non-core code.
- Normalize.NormalizeFirmNameShape: `str.upper` and `\w` are ASCII-only here. Python upper-cases and keeps non-ASCII letters, but the model drops them as punctuation. For example, `"é"` normalises to `""`, so `"Café"` and `"Caf"` share a client id.
- Lobbyfacts.ValidClientBounds: `isalpha` is ASCII-only here. A name written only in non-Latin letters, such as Greek, is rejected although Python accepts it.
- Cyprus.CheckFirmMatch: `str.lower` is ASCII-only here. Upper-case Greek such as `ΦΤΙ` in the page text is not folded, so the Greek spellings are found only in lower case.
- FrenchHatvp.ScanSection and FrenchHatvp.KindOf: `str.lower` is ASCII-only here. `TÉLÉPHONE` or `ACTIVITÉ` in capitals is not recognised as a skip word or a closer, while Python recognises them.
- UkOrcl.ScanCountsClients and the other case-insensitive tests share the same ASCII-only lower-casing.
- Normalize.Digest12: MD5 is replaced by a fixed polynomial fingerprint written as twelve hex digits. No lemma depends on which digest it is, only on it being a function of the combined text. Collisions are not modelled.
- Merge.MergeClientRecords: `requires MergeSafe(records)` stands for the `AttributeError` Python raises. It raises when a name is truthy but not a string, or when the date of a record whose key repeats is truthy but not a string. `Merge.KeyOf` and `Merge.AbsorbOf` return `""` or the canonical record on those inputs, which the requirement excludes. `Merge.Aggregate` returns `None` for the same raise.
- Merge.KeyOf and Merge.AbsorbOf: return `""` or the canonical record where Python raises `AttributeError` on a non-text name or date; only inputs meeting `MergeSafe` reach them.
- Normalize.NormalizeDate: takes `Optional[str]`. A truthy non-string, on which Python's `.strip()` raises, is excluded by its callers' requirements.
- Merge.MergeClientRecords: Python stores the caller's dict as the canonical record and updates it in place. The model updates a copy in its own table, so the aliasing of the caller's dicts is not captured.
- Calendar.IsoFormat: years below 1000 are padded to four digits. glibc's `strftime('%Y')` does not pad them on some Python versions, so results for inputs such as `"0999-01-15"` may differ.
- Values: JSON numbers are integers. Floats, and their truthiness and rendering, are not modelled.
- Italian.UniqueClients: the Python loop iterates over the `found_companies` set, whose order is unspecified. The model takes any order of the names as input (`Italian.ClientRecords`). It requires each record to carry a string `client_name`, as every record built there does.
- Strptime.Parse: `\d` in the compiled `%Y`, `%y`, `%m` and `%d` patterns matches ASCII digits only here, while CPython's patterns accept any Unicode decimal digit. Python's `normalize_date("２０２３-01-15")` gives `"2023-01-15"`, but the model hands the input back.
- Normalize.NormalizeDate: through Strptime.Parse, a date written with non-ASCII decimal digits falls back to the input instead of being read.
- Fara.ParseDate: the strptime formats and the fallback pattern `\d{1,2}[-/]…` at fara.py:219 accept ASCII digits only here, so non-ASCII digit dates are neither read nor kept by the fallback.
- Austrian.ParseGermanDate: its strptime formats accept ASCII digits only here, so a date in non-ASCII digits comes back stripped instead of in ISO form.
- Italian.ParseItalianDate: the `isdigit()` year test and `int()` of the slashed parts accept ASCII digits only here, so a non-ASCII-digit year or date gives `None`.
- Cyprus.SplitClients: the numbering pattern `^\d+\.` matches ASCII digits only here, so a line numbered in non-ASCII digits keeps its numbering in the client name.
- Text.PyInt: `int()` accepts a sign and ASCII digits with single underscores, after stripping the full `str.isspace` set as Python does. Non-ASCII decimal digits are not modelled.
- Austrian.GermanIso and the other Austrian lemmas: `%d.%m.%y` has no round-trip lemma; only its place in the format order is modelled.
- Normalize.NotIdempotent: the firm-name normalisation is not idempotent, and Merge.OrderMatters shows the merge depends on input order. Both are properties of the code as written.
