/**
 * `merge_client_records` of `lobbyharvest/src/utils/normalize.py` and the
 * aggregator's filter-then-merge step.
 *
 * The merge walks the records once. The first record seen for a key becomes
 * the canonical record for that key; each later record with the same key is
 * absorbed into it: start dates are reconciled to the earlier one, end
 * dates to the later one, and missing identifiers are filled in. The
 * result lists the canonical records in the order their keys first appear.
 *
 * Python stores the caller's dict itself as the canonical record and
 * updates it in place; here the canonical record is a value in the
 * method's own table, so the update to the caller's dict is not modelled.
 */
module Merge {
  import opened Common
  import opened Text
  import opened Values
  import opened Normalize
  import opened KeyedFold

  /** The identifier fields filled from later records, in the order they are visited. */
  const IdFields: seq<string> := ["client_id", "client_registration_number", "firm_registration_number"]

  /**
   * The fields whose values the string helpers read: the names that make
   * the key and the two dates. Each holds a string or a falsy value.
   */
  predicate Mergeable(r: Record) {
    NamesText(r) && TextLike(Get(r, "start_date")) && TextLike(Get(r, "end_date"))
  }

  /** The two names the key is made of hold a string or a falsy value. */
  predicate NamesText(r: Record) {
    TextLike(Get(r, "firm_name")) && TextLike(Get(r, "client_name"))
  }

  /** `generate_client_id(record.get('firm_name', ''), record.get('client_name', ''))`. */
  function RecordKey(r: Record): string
    requires TextLike(Get(r, "firm_name")) && TextLike(Get(r, "client_name"))
  {
    GenerateClientId(TextOf(Get(r, "firm_name")), TextOf(Get(r, "client_name")))
  }

  /** `normalize_date(record.get(field))`. */
  function DateOf(r: Record, field: string): Option<string>
    requires TextLike(Get(r, field))
  {
    NormalizeDate(OptionalText(Get(r, field)))
  }

  /**
   * One date field of `existing` after `record` is absorbed: both dates
   * present gives the smaller (`earliest`) or larger of the two normalised
   * strings, an incoming date alone is adopted in normalised form, and
   * without an incoming date the field keeps whatever it held.
   */
  function Reconcile(e: Record, r: Record, field: string, earliest: bool): (x: Record)
    requires TextLike(Get(e, field)) && TextLike(Get(r, field))
    ensures TextLike(Get(x, field))
    ensures forall f | f != field :: Get(x, f) == Get(e, f)
  {
    var d1, d2 := DateOf(e, field), DateOf(r, field);
    if d1.Some? && d2.Some? then
      e[field := Str(if earliest then MinStr(d1.value, d2.value) else MaxStr(d1.value, d2.value))]
    else if d2.Some? then e[field := Str(d2.value)]
    else e
  }

  /** One identifier field: filled from `record` only when `existing` has no truthy value. */
  function FillId(e: Record, r: Record, f: string): (x: Record)
    ensures forall g | g != f :: Get(x, g) == Get(e, g)
  {
    if !Truthy(Get(e, f)) && Truthy(Get(r, f)) then e[f := r[f]] else e
  }

  /** The identifier fields `fs`, visited in order. */
  function FillIds(e: Record, r: Record, fs: seq<string>): (x: Record)
    ensures forall g | g !in fs :: Get(x, g) == Get(e, g)
  {
    if fs == [] then e else FillId(FillIds(e, r, fs[..|fs| - 1]), r, fs[|fs| - 1])
  }

  /** What lines 56-75 do to the canonical record `e` when `r` has the same key. */
  function Absorb(e: Record, r: Record): (x: Record)
    requires Mergeable(e) && Mergeable(r)
    ensures Mergeable(x)
  {
    AbsorbFieldsApart();
    var e1 := Reconcile(e, r, "start_date", true);
    var e2 := Reconcile(e1, r, "end_date", false);
    FillIds(e2, r, IdFields)
  }

  /** The fields `Mergeable` reads are neither identifiers nor each other. */
  lemma AbsorbFieldsApart()
    ensures "start_date" != "end_date"
    ensures "start_date" !in IdFields && "end_date" !in IdFields
    ensures "firm_name" !in IdFields && "client_name" !in IdFields
    ensures "firm_name" != "start_date" && "firm_name" != "end_date"
    ensures "client_name" != "start_date" && "client_name" != "end_date"
  {
  }

  predicate AllMergeable(rs: seq<Record>) {
    forall i | 0 <= i < |rs| :: Mergeable(rs[i])
  }

  /**
   * What the merge needs in order not to raise: every record's names are
   * text, since each key is computed; and every record whose key occurs
   * more than once has text dates, since those are the only records whose
   * dates are normalised. A record whose key occurs once is never looked
   * at beyond its names.
   */
  predicate MergeSafe(rs: seq<Record>) {
    && (forall i | 0 <= i < |rs| :: NamesText(rs[i]))
    && SharedKeysOk(rs, KeyOf, Mergeable)
  }

  /** Records that all have text names and dates are safe to merge. */
  lemma AllMergeableSafe(rs: seq<Record>)
    requires AllMergeable(rs)
    ensures MergeSafe(rs)
  {
  }

  /**
   * The merge key of any record. Only records whose names are text reach
   * it; the `""` branch stands for Python raising on anything else.
   */
  function KeyOf(r: Record): string {
    if TextLike(Get(r, "firm_name")) && TextLike(Get(r, "client_name")) then RecordKey(r) else ""
  }

  /** The absorb step for any two records; only mergeable ones reach it. */
  function AbsorbOf(e: Record, r: Record): Record {
    if Mergeable(e) && Mergeable(r) then Absorb(e, r) else e
  }

  /** The value `merge_client_records(rs)` returns. */
  function Merge(rs: seq<Record>): seq<Record> {
    Output(Fold(rs, KeyOf, AbsorbOf))
  }

  /** Lines 58-63 (or 65-70 with `earliest` false), updating the local `existing`. */
  method ReconcileDates(existing: Record, record: Record, field: string, earliest: bool) returns (x: Record)
    requires TextLike(Get(existing, field)) && TextLike(Get(record, field))
    ensures x == Reconcile(existing, record, field, earliest)
  {
    x := existing;
    var d1 := DateOf(x, field);
    var d2 := DateOf(record, field);
    if d1.Some? && d2.Some? {
      x := x[field := Str(if earliest then MinStr(d1.value, d2.value) else MaxStr(d1.value, d2.value))];
    } else if d2.Some? {
      x := x[field := Str(d2.value)];
    }
  }

  /** Lines 73-75. */
  method MergeIds(existing: Record, record: Record) returns (x: Record)
    ensures x == FillIds(existing, record, IdFields)
  {
    x := existing;
    for j := 0 to |IdFields|
      invariant x == FillIds(existing, record, IdFields[..j])
    {
      assert IdFields[..j + 1][..j] == IdFields[..j];
      var idField := IdFields[j];
      if !Truthy(Get(x, idField)) && Truthy(Get(record, idField)) {
        x := x[idField := record[idField]];
      }
    }
    assert IdFields[..|IdFields|] == IdFields;
  }

  /** One pass of the loop, in the terms the method uses. */
  lemma StepSafe(t: Table<Record>, r: Record)
    requires WellFormed(t) && NamesText(r)
    ensures RecordKey(r) !in t.items ==>
      Step(t, r, KeyOf, AbsorbOf) == Table(t.order + [RecordKey(r)], t.items[RecordKey(r) := r])
    ensures RecordKey(r) in t.items && Mergeable(r) && Mergeable(t.items[RecordKey(r)]) ==>
      Step(t, r, KeyOf, AbsorbOf) == Table(t.order, t.items[RecordKey(r) := Absorb(t.items[RecordKey(r)], r)])
  {
  }

  /** Absorbing one mergeable record into another gives a mergeable record. */
  lemma AbsorbOfMergeable(e: Record, r: Record)
    requires Mergeable(e) && Mergeable(r)
    ensures AbsorbOf(e, r) == Absorb(e, r) && Mergeable(AbsorbOf(e, r))
  {
  }

  /** Lines 56-75: the canonical record after `record` is absorbed into it. */
  method AbsorbRecord(existing: Record, record: Record) returns (x: Record)
    requires Mergeable(existing) && Mergeable(record)
    ensures x == Absorb(existing, record)
  {
    x := ReconcileDates(existing, record, "start_date", true);
    x := ReconcileDates(x, record, "end_date", false);
    x := MergeIds(x, record);
  }

  /** `merge_client_records(records)`. */
  method MergeClientRecords(records: seq<Record>) returns (merged: seq<Record>)
    requires MergeSafe(records)
    ensures merged == Merge(records)
  {
    var order: seq<string> := [];
    var table: map<string, Record> := map[];
    assert records[..0] == [];
    for i := 0 to |records|
      invariant Table(order, table) == Fold(records[..i], KeyOf, AbsorbOf)
      invariant Ready(records, i, table, KeyOf, Mergeable)
    {
      FoldStep(records, i, KeyOf, AbsorbOf);
      var record := records[i];
      var key := RecordKey(record);
      if key in table && Mergeable(table[key]) && Mergeable(record) {
        AbsorbOfMergeable(table[key], record);
      }
      ReadyStep(records, i, KeyOf, AbsorbOf, Mergeable);
      StepSafe(Table(order, table), record);
      if key !in table {
        table := table[key := record];
        order := order + [key];
      } else {
        var existing := AbsorbRecord(table[key], record);
        table := table[key := existing];
      }
    }
    assert records[..|records|] == records;
    merged := seq(|order|, j requires 0 <= j < |order| => table[order[j]]);
  }

  // ----- One absorb -----

  predicate DateField(field: string) {
    field == "start_date" || field == "end_date"
  }

  /** The date field `field` after an absorb is that field reconciled alone: the other steps leave it be. */
  lemma AbsorbDate(e: Record, r: Record, field: string)
    requires Mergeable(e) && Mergeable(r) && DateField(field)
    ensures Get(Absorb(e, r), field) == Get(Reconcile(e, r, field, field == "start_date"), field)
  {
    var e1 := Reconcile(e, r, "start_date", true);
    if field == "end_date" {
      assert Get(e1, "end_date") == Get(e, "end_date");
    }
  }

  /** Only the two dates and the identifier fields can change. */
  lemma AbsorbOthers(e: Record, r: Record, f: string)
    requires Mergeable(e) && Mergeable(r)
    requires !DateField(f) && f !in IdFields
    ensures Get(Absorb(e, r), f) == Get(e, f)
  {
  }

  /** Visiting distinct identifier fields fills each one from `r` only when `e` has no truthy value. */
  lemma {:induction false} FillIdsAt(e: Record, r: Record, fs: seq<string>, f: string)
    requires Distinct(fs) && f in fs
    ensures Truthy(Get(e, f)) ==> Get(FillIds(e, r, fs), f) == Get(e, f)
    ensures !Truthy(Get(e, f)) && Truthy(Get(r, f)) ==> Get(FillIds(e, r, fs), f) == Get(r, f)
    ensures !Truthy(Get(e, f)) && !Truthy(Get(r, f)) ==> Get(FillIds(e, r, fs), f) == Get(e, f)
  {
    var init := fs[..|fs| - 1];
    if fs[|fs| - 1] != f {
      FillIdsAt(e, r, init, f);
    } else {
      assert f !in init by {
        forall i | 0 <= i < |init| ensures init[i] != f {
          assert init[i] == fs[i];
        }
      }
    }
  }

  /** An identifier already present is kept; a missing one is taken from the incoming record. */
  lemma AbsorbId(e: Record, r: Record, f: string)
    requires Mergeable(e) && Mergeable(r) && f in IdFields
    ensures Truthy(Get(e, f)) ==> Get(Absorb(e, r), f) == Get(e, f)
    ensures !Truthy(Get(e, f)) && Truthy(Get(r, f)) ==> Get(Absorb(e, r), f) == Get(r, f)
    ensures !Truthy(Get(e, f)) && !Truthy(Get(r, f)) ==> Get(Absorb(e, r), f) == Get(e, f)
  {
    var e2 := Reconcile(Reconcile(e, r, "start_date", true), r, "end_date", false);
    assert Get(e2, f) == Get(e, f);
    FillIdsAt(e2, r, IdFields, f);
  }

  // ----- One key's records -----

  /** The canonical record after the records of one key, `g`, have been seen in order. */
  function AbsorbAll(g: seq<Record>): (x: Record)
    requires |g| >= 1 && AllMergeable(g)
    ensures Mergeable(x)
  {
    if |g| == 1 then g[0] else Absorb(AbsorbAll(g[..|g| - 1]), g[|g| - 1])
  }

  /** The first record of the key supplies every field other than the dates and identifiers. */
  lemma {:induction false} AbsorbAllOthers(g: seq<Record>, f: string)
    requires |g| >= 1 && AllMergeable(g)
    requires !DateField(f) && f !in IdFields
    ensures Get(AbsorbAll(g), f) == Get(g[0], f)
  {
    if |g| > 1 {
      AbsorbAllOthers(g[..|g| - 1], f);
      AbsorbOthers(AbsorbAll(g[..|g| - 1]), g[|g| - 1], f);
    }
  }

  /**
   * An identifier ends up truthy iff some record of the key has it, and it
   * is the value of the first record that has it: never overwritten.
   */
  lemma {:induction false} AbsorbAllId(g: seq<Record>, f: string, j: nat)
    requires |g| >= 1 && AllMergeable(g) && f in IdFields
    requires j < |g| && Truthy(Get(g[j], f))
    requires forall i | 0 <= i < j :: !Truthy(Get(g[i], f))
    ensures Get(AbsorbAll(g), f) == Get(g[j], f)
  {
    if |g| > 1 {
      var init := g[..|g| - 1];
      if j < |g| - 1 {
        AbsorbAllId(init, f, j);
      } else {
        AbsorbAllIdMissing(init, f);
      }
      AbsorbId(AbsorbAll(init), g[|g| - 1], f);
    }
  }

  /** An identifier no record of the key has stays as the first record left it. */
  lemma {:induction false} AbsorbAllIdMissing(g: seq<Record>, f: string)
    requires |g| >= 1 && AllMergeable(g) && f in IdFields
    requires forall i | 0 <= i < |g| :: !Truthy(Get(g[i], f))
    ensures Get(AbsorbAll(g), f) == Get(g[0], f)
  {
    if |g| > 1 {
      var init := g[..|g| - 1];
      AbsorbAllIdMissing(init, f);
      AbsorbId(AbsorbAll(init), g[|g| - 1], f);
    }
  }

  /** `a` is no later (`earliest`) or no earlier than `b`. */
  predicate Beats(a: string, b: string, earliest: bool) {
    if earliest then LexLessEq(a, b) else LexLessEq(b, a)
  }

  /** The normalised dates of the records `g` in `field`. */
  function Dates(g: seq<Record>, field: string): (ds: seq<Option<string>>)
    requires AllMergeable(g) && DateField(field)
    ensures |ds| == |g|
    ensures forall i | 0 <= i < |g| :: ds[i] == DateOf(g[i], field)
  {
    if g == [] then [] else Dates(g[..|g| - 1], field) + [DateOf(g[|g| - 1], field)]
  }

  /** `m` is one of the dates present in `ds`, and the earliest (or latest) of them. */
  predicate Extreme(m: string, ds: seq<Option<string>>, earliest: bool) {
    && (exists i | 0 <= i < |ds| :: ds[i] == Some(m))
    && (forall i | 0 <= i < |ds| && ds[i].Some? :: Beats(m, ds[i].value, earliest))
  }

  /** An absent date does not disturb the extreme. */
  lemma ExtremeSkip(ds: seq<Option<string>>, m: string, earliest: bool)
    requires Extreme(m, ds, earliest)
    ensures Extreme(m, ds + [None], earliest)
  {
    var i :| 0 <= i < |ds| && ds[i] == Some(m);
    assert (ds + [None])[i] == Some(m);
  }

  /** The min (or max) of the extreme so far and a new date is the extreme of the longer sequence. */
  lemma ExtremeStep(ds: seq<Option<string>>, m: string, v: string, earliest: bool)
    requires Extreme(m, ds, earliest)
    ensures Extreme(if earliest then MinStr(m, v) else MaxStr(m, v), ds + [Some(v)], earliest)
  {
    var es := ds + [Some(v)];
    var x := if earliest then MinStr(m, v) else MaxStr(m, v);
    MinMaxBounds(m, v);
    var i :| 0 <= i < |ds| && ds[i] == Some(m);
    if x == m { assert es[i] == Some(x); } else { assert es[|ds|] == Some(x); }
    forall j | 0 <= j < |es| && es[j].Some?
      ensures Beats(x, es[j].value, earliest)
    {
      if j < |ds| {
        var d := ds[j].value;
        if earliest { LexLessEqTransitive(x, m, d); } else { LexLessEqTransitive(d, m, x); }
      }
    }
  }

  /** A date followed only by absent ones is the extreme. */
  lemma ExtremeOnly(v: string, n: nat, earliest: bool)
    ensures Extreme(v, [Some(v)] + seq(n, _ => None), earliest)
  {
    var ds := [Some(v)] + seq(n, _ => None);
    assert ds[0] == Some(v);
    forall j | 0 <= j < |ds| && ds[j].Some? ensures Beats(v, ds[j].value, earliest) {
      assert j == 0;
    }
  }

  /** A date after absent ones only is the extreme. */
  lemma ExtremeLast(ds: seq<Option<string>>, v: string, earliest: bool)
    requires forall i | 0 <= i < |ds| :: ds[i].None?
    ensures Extreme(v, ds + [Some(v)], earliest)
  {
    var es := ds + [Some(v)];
    assert es[|ds|] == Some(v);
    forall j | 0 <= j < |es| && es[j].Some? ensures Beats(v, es[j].value, earliest) {
      assert j == |ds|;
    }
  }

  /**
   * What a date field holds once the records with normalised dates `ds`
   * have been seen, the first of them holding `first` in that field.
   */
  predicate DateState(x: Value, ds: seq<Option<string>>, first: Value, earliest: bool) {
    if exists i | 1 <= i < |ds| :: ds[i].Some? then x.Str? && Extreme(x.s, ds, earliest)
    else x == first
  }

  /** A later record with no date leaves the state as it was. */
  lemma DateStepNone(x: Value, ds: seq<Option<string>>, first: Value, earliest: bool)
    requires |ds| >= 1 && DateState(x, ds, first, earliest)
    ensures DateState(x, ds + [None], first, earliest)
  {
    var es := ds + [None];
    if exists i | 1 <= i < |ds| :: ds[i].Some? {
      var i :| 1 <= i < |ds| && ds[i].Some?;
      assert es[i].Some?;
      ExtremeSkip(ds, x.s, earliest);
    } else {
      forall i | 1 <= i < |es| ensures es[i].None? {
        if i < |ds| { assert es[i] == ds[i]; }
      }
    }
  }

  /**
   * A later record with date `v`: with `d1` the normalised current value,
   * the field becomes the min (max) of `d1` and `v`, or `v` when `d1` is
   * absent.
   */
  lemma DateStepSome(x: Value, d1: Option<string>, ds: seq<Option<string>>, first: Value, v: string, earliest: bool)
    requires |ds| >= 1 && DateState(x, ds, first, earliest)
    requires (exists i | 1 <= i < |ds| :: ds[i].Some?) ==> d1 == Some(x.s)
    requires !(exists i | 1 <= i < |ds| :: ds[i].Some?) ==> d1 == ds[0]
    ensures DateState(
      Str(if d1.Some? then (if earliest then MinStr(d1.value, v) else MaxStr(d1.value, v)) else v),
      ds + [Some(v)], first, earliest)
  {
    var es := ds + [Some(v)];
    assert es[|ds|] == Some(v);
    if exists i | 1 <= i < |ds| :: ds[i].Some? {
      ExtremeStep(ds, x.s, v, earliest);
    } else if d1.Some? {
      assert ds == [Some(d1.value)] + seq(|ds| - 1, _ => None);
      ExtremeOnly(d1.value, |ds| - 1, earliest);
      ExtremeStep(ds, d1.value, v, earliest);
    } else {
      assert forall i | 0 <= i < |ds| :: ds[i].None?;
      ExtremeLast(ds, v, earliest);
    }
  }

  /** A field holding an already normalised date reads back as that date. */
  lemma DateOfNormal(r: Record, field: string, o: Option<string>)
    requires o.Some? && Get(r, field) == Str(o.value) && NormalizeDate(o) == o
    ensures TextLike(Get(r, field)) && DateOf(r, field) == o
  {
  }

  /** One absorb moves the date state of `field` forward by the incoming record's date. */
  lemma AbsorbDateStep(prev: Record, last: Record, ds: seq<Option<string>>, first: Value, field: string)
    requires Mergeable(prev) && Mergeable(last) && DateField(field) && |ds| >= 1
    requires DateState(Get(prev, field), ds, first, field == "start_date")
    requires (exists i | 1 <= i < |ds| :: ds[i].Some?) ==> exists k | 0 <= k < |ds| :: ds[k] == Some(Get(prev, field).s)
    requires !(exists i | 1 <= i < |ds| :: ds[i].Some?) ==> DateOf(prev, field) == ds[0]
    requires forall k | 0 <= k < |ds| && ds[k].Some? :: NormalizeDate(ds[k]) == ds[k]
    ensures DateState(Get(Absorb(prev, last), field), ds + [DateOf(last, field)], first, field == "start_date")
  {
    var earliest := field == "start_date";
    AbsorbDate(prev, last, field);
    var d2 := DateOf(last, field);
    if d2.Some? {
      var d1 := DateOf(prev, field);
      if exists i | 1 <= i < |ds| :: ds[i].Some? {
        var k :| 0 <= k < |ds| && ds[k] == Some(Get(prev, field).s);
        DateOfNormal(prev, field, ds[k]);
      }
      DateStepSome(Get(prev, field), d1, ds, first, d2.value, earliest);
    } else {
      DateStepNone(Get(prev, field), ds, first, earliest);
    }
  }

  /** Every date `DateOf` gives is already normalised. */
  lemma DatesNormal(g: seq<Record>, field: string)
    requires AllMergeable(g) && DateField(field)
    ensures forall k | 0 <= k < |g| && Dates(g, field)[k].Some? :: NormalizeDate(Dates(g, field)[k]) == Dates(g, field)[k]
  {
    forall k | 0 <= k < |g| && Dates(g, field)[k].Some?
      ensures NormalizeDate(Dates(g, field)[k]) == Dates(g, field)[k]
    {
      NormalizeDateIdempotent(OptionalText(Get(g[k], field)));
    }
  }

  /**
   * Lines 58-70 over all records of one key: if no later record carries a
   * date, the first record's value stays as it was (even unparsed); once
   * one does, the field holds the earliest start (latest end) of all the
   * normalised dates of the key, the first record's included.
   */
  lemma {:induction false} AbsorbAllDate(g: seq<Record>, field: string)
    requires |g| >= 1 && AllMergeable(g) && DateField(field)
    ensures DateState(Get(AbsorbAll(g), field), Dates(g, field), Get(g[0], field), field == "start_date")
  {
    if |g| > 1 {
      var init := g[..|g| - 1];
      var ds := Dates(init, field);
      AbsorbAllDate(init, field);
      DatesNormal(init, field);
      assert init[0] == g[0];
      AbsorbDateStep(AbsorbAll(init), g[|g| - 1], ds, Get(g[0], field), field);
    }
  }

  // ----- The whole merge -----

  /** On mergeable records the generic combination is the absorb sequence. */
  lemma {:induction false} CombineAbsorb(g: seq<Record>)
    requires |g| >= 1 && AllMergeable(g)
    ensures Combine(g, AbsorbOf) == AbsorbAll(g)
  {
    if |g| > 1 {
      CombineAbsorb(g[..|g| - 1]);
    }
  }

  /**
   * Output record `i` is the first record of its key when the key occurs
   * once, and the absorbed group of records sharing its key otherwise.
   */
  lemma MergedRecord(rs: seq<Record>, i: nat)
    requires MergeSafe(rs) && i < |Merge(rs)|
    ensures Fold(rs, KeyOf, AbsorbOf).order[i] in Keys(rs, KeyOf)
    ensures Group(rs, Fold(rs, KeyOf, AbsorbOf).order[i], KeyOf) != []
    ensures var g := Group(rs, Fold(rs, KeyOf, AbsorbOf).order[i], KeyOf);
      |g| == 1 ==> Merge(rs)[i] == g[0]
    ensures var g := Group(rs, Fold(rs, KeyOf, AbsorbOf).order[i], KeyOf);
      |g| >= 2 ==> AllMergeable(g) && Merge(rs)[i] == AbsorbAll(g)
  {
    var k := Fold(rs, KeyOf, AbsorbOf).order[i];
    var g := Group(rs, k, KeyOf);
    OutputItem(rs, KeyOf, AbsorbOf, i);
    if |g| >= 2 {
      GroupShared(rs, k, KeyOf, Mergeable);
      CombineAbsorb(g);
    }
  }

  /**
   * Each output record keeps every field of the first input record with its
   * key except the dates and identifiers: `firm_name` and `client_name` in
   * particular are never changed.
   */
  lemma BaseFieldsKept(rs: seq<Record>, i: nat, f: string)
    requires MergeSafe(rs) && i < |Merge(rs)|
    requires !DateField(f) && f !in IdFields
    ensures Fold(rs, KeyOf, AbsorbOf).order[i] in Keys(rs, KeyOf)
    ensures Get(Merge(rs)[i], f) == Get(rs[FirstIndex(Keys(rs, KeyOf), Fold(rs, KeyOf, AbsorbOf).order[i])], f)
  {
    var k := Fold(rs, KeyOf, AbsorbOf).order[i];
    MergedRecord(rs, i);
    GroupFirst(rs, k, KeyOf);
    if |Group(rs, k, KeyOf)| >= 2 {
      AbsorbAllOthers(Group(rs, k, KeyOf), f);
    }
  }

  /**
   * The dates of output record `i`: with `g` the records of its key in
   * input order, a lone record keeps its own value, whatever it holds;
   * otherwise a date field holds the earliest start (latest end) of the
   * normalised dates of `g` as soon as a record after the first carries
   * one, and the first record's own value if none does.
   */
  lemma MergedDates(rs: seq<Record>, i: nat, field: string)
    requires MergeSafe(rs) && i < |Merge(rs)| && DateField(field)
    ensures Group(rs, Fold(rs, KeyOf, AbsorbOf).order[i], KeyOf) != []
    ensures var g := Group(rs, Fold(rs, KeyOf, AbsorbOf).order[i], KeyOf);
      |g| == 1 ==> Get(Merge(rs)[i], field) == Get(g[0], field)
    ensures var g := Group(rs, Fold(rs, KeyOf, AbsorbOf).order[i], KeyOf);
      |g| >= 2 ==> (AllMergeable(g) &&
        DateState(Get(Merge(rs)[i], field), Dates(g, field), Get(g[0], field), field == "start_date"))
  {
    MergedRecord(rs, i);
    var g := Group(rs, Fold(rs, KeyOf, AbsorbOf).order[i], KeyOf);
    if |g| >= 2 {
      AbsorbAllDate(g, field);
    }
  }

  /** A record whose key occurs nowhere else is returned as it is, whatever its dates hold. */
  lemma LoneRecordKept(r: Record)
    requires NamesText(r)
    ensures MergeSafe([r]) && Merge([r]) == [r]
  {
    FoldOne(r, KeyOf, AbsorbOf);
    var out := Merge([r]);
    assert |out| == 1 && out[0] == r;
    assert SharedKeysOk([r], KeyOf, Mergeable);
  }

  /**
   * The merge depends on input order: a first record's date is normalised
   * only when a later record of its key carries a date too. Of two records
   * where only one has the start "03/04/2023", that text survives as
   * written when its record comes first and becomes "2023-04-03" when it
   * comes second.
   */
  lemma OrderMatters(a: Record, b: Record)
    requires Mergeable(a) && Mergeable(b)
    requires Get(a, "start_date") == Str("03/04/2023") && !Truthy(Get(b, "start_date"))
    ensures Get(Absorb(a, b), "start_date") == Str("03/04/2023")
    ensures Get(Absorb(b, a), "start_date") == Str("2023-04-03")
  {
    DayFirst();
    assert DateOf(a, "start_date") == Some("2023-04-03");
    assert DateOf(b, "start_date") == None;
    AbsorbDate(a, b, "start_date");
    AbsorbDate(b, a, "start_date");
  }

  lemma SameNamesSameKey(a: Record, b: Record)
    requires Mergeable(a) && Mergeable(b)
    requires Get(a, "firm_name") == Get(b, "firm_name") && Get(a, "client_name") == Get(b, "client_name")
    ensures RecordKey(a) == RecordKey(b)
  {
  }

  /** Two records with the same names share a key, so the second is absorbed into the first. */
  lemma SameNamesFold(a: Record, b: Record)
    requires Mergeable(a) && Mergeable(b)
    requires Get(a, "firm_name") == Get(b, "firm_name") && Get(a, "client_name") == Get(b, "client_name")
    ensures Fold([a, b], KeyOf, AbsorbOf) == Table([RecordKey(a)], map[RecordKey(a) := Absorb(a, b)])
  {
    SameNamesSameKey(a, b);
    FoldSameKey(a, b, KeyOf, AbsorbOf);
    assert KeyOf(a) == RecordKey(a) && AbsorbOf(a, b) == Absorb(a, b);
  }

  /** Two records with the same names come out as one. */
  lemma SameNamesMerged(a: Record, b: Record)
    requires Mergeable(a) && Mergeable(b)
    requires Get(a, "firm_name") == Get(b, "firm_name") && Get(a, "client_name") == Get(b, "client_name")
    ensures Merge([a, b]) == [Absorb(a, b)]
  {
    SameNamesFold(a, b);
  }

  // ----- The aggregator: filter, then merge -----

  /** `[r for r in all_results if validate_record(r)]`. */
  function ValidOnly(rs: seq<Record>): (vs: seq<Record>)
    ensures |vs| <= |rs|
    ensures forall i | 0 <= i < |vs| :: ValidateRecord(vs[i]) && vs[i] in rs
  {
    if rs == [] then []
    else ValidOnly(rs[..|rs| - 1]) + (if ValidateRecord(rs[|rs| - 1]) then [rs[|rs| - 1]] else [])
  }

  /** A record passes the filter as itself when it validates. */
  function ValidPick(r: Record): Option<Record> {
    if ValidateRecord(r) then Some(r) else None
  }

  /** The filter keeps every valid record and nothing else, each once and in input order. */
  lemma {:induction false} ValidOnlyPicked(rs: seq<Record>)
    ensures PickedBy(ValidOnly(rs), rs, ValidPick, Hits(rs, ValidPick))
  {
    if rs == [] {
      PickedEmpty(ValidPick);
    } else {
      var init, last := rs[..|rs| - 1], rs[|rs| - 1];
      ValidOnlyPicked(init);
      PickedSnoc(ValidOnly(init), init, last, ValidPick);
      assert init + [last] == rs;
      if ValidateRecord(last) {
        assert ValidOnly(rs) == ValidOnly(init) + [ValidPick(last).value];
      } else {
        assert ValidOnly(rs) == ValidOnly(init);
      }
    }
  }

  /**
   * Lines 78-79 of the aggregator; `None` stands for the exception the
   * merge raises on records it cannot read, which the aggregator does not
   * catch.
   */
  function Aggregate(rs: seq<Record>): Option<seq<Record>> {
    var vs := ValidOnly(rs);
    if MergeSafe(vs) then Some(Merge(vs)) else None
  }

  lemma NamesNotReconciled()
    ensures !DateField("firm_name") && "firm_name" !in IdFields
    ensures !DateField("client_name") && "client_name" !in IdFields
  {
  }

  /** Records with the same names have the same key. */
  lemma KeyOfNames(a: Record, b: Record)
    requires Get(a, "firm_name") == Get(b, "firm_name") && Get(a, "client_name") == Get(b, "client_name")
    ensures KeyOf(a) == KeyOf(b)
  {
  }

  /**
   * Output record `i` of a merge has the names of the first record of its
   * key, hence that key; so a valid input gives a valid output.
   */
  lemma MergedNames(vs: seq<Record>, i: nat)
    requires MergeSafe(vs) && i < |Merge(vs)|
    ensures Fold(vs, KeyOf, AbsorbOf).order[i] in Keys(vs, KeyOf)
    ensures var j := FirstIndex(Keys(vs, KeyOf), Fold(vs, KeyOf, AbsorbOf).order[i]);
      && Get(Merge(vs)[i], "firm_name") == Get(vs[j], "firm_name")
      && Get(Merge(vs)[i], "client_name") == Get(vs[j], "client_name")
    ensures KeyOf(Merge(vs)[i]) == Fold(vs, KeyOf, AbsorbOf).order[i]
  {
    NamesNotReconciled();
    BaseFieldsKept(vs, i, "firm_name");
    BaseFieldsKept(vs, i, "client_name");
    var j := FirstIndex(Keys(vs, KeyOf), Fold(vs, KeyOf, AbsorbOf).order[i]);
    KeyOfNames(Merge(vs)[i], vs[j]);
  }

  /**
   * The aggregator raises exactly when the valid records cannot be merged.
   * Otherwise every record it returns passes `validate_record`, there are
   * no more of them than valid inputs, and every valid input is represented:
   * some output record has its key.
   */
  lemma AggregateValid(rs: seq<Record>)
    ensures Aggregate(rs).Some? <==> MergeSafe(ValidOnly(rs))
    ensures Aggregate(rs).Some? ==> |Aggregate(rs).value| <= |ValidOnly(rs)|
    ensures Aggregate(rs).Some? ==> forall i | 0 <= i < |Aggregate(rs).value| :: ValidateRecord(Aggregate(rs).value[i])
    ensures Aggregate(rs).Some? ==> forall i | 0 <= i < |rs| && ValidateRecord(rs[i]) ::
      exists j | 0 <= j < |Aggregate(rs).value| :: KeyOf(Aggregate(rs).value[j]) == KeyOf(rs[i])
  {
    var vs := ValidOnly(rs);
    if MergeSafe(vs) {
      var out := Merge(vs);
      var t := Fold(vs, KeyOf, AbsorbOf);
      OutputLength(vs, KeyOf, AbsorbOf);
      forall i | 0 <= i < |out| ensures ValidateRecord(out[i]) && KeyOf(out[i]) == t.order[i] {
        MergedNames(vs, i);
        var j := FirstIndex(Keys(vs, KeyOf), t.order[i]);
        assert ValidateRecord(vs[j]);
      }
      ValidOnlyPicked(rs);
      OrderKeys(vs, KeyOf, AbsorbOf);
      forall i | 0 <= i < |rs| && ValidateRecord(rs[i])
        ensures exists j | 0 <= j < |out| :: KeyOf(out[j]) == KeyOf(rs[i])
      {
        assert ValidPick(rs[i]).Some?;
        var m :| 0 <= m < |Hits(rs, ValidPick)| && Hits(rs, ValidPick)[m] == i;
        assert vs[m] == rs[i];
        assert KeyOf(rs[i]) in Keys(vs, KeyOf);
        var j :| 0 <= j < |t.order| && t.order[j] == KeyOf(rs[i]);
        assert KeyOf(out[j]) == KeyOf(rs[i]);
      }
    }
  }
}
