/**
 * The JSON handling of `lobbyharvest/src/scrapers/uk_lobbying.py`: turning
 * one item of the register's JSON answer into a client record, and
 * collecting the records of a whole answer, which may be a list of items or
 * a dict holding such a list under one of four keys.
 *
 * Python raises `TypeError` where the code applies `in` or `[]` to a value
 * that does not support it; that outcome is `Raises` here. In the dict
 * branch the items are passed on without the `isinstance(item, dict)` test
 * of the list branch, so a `None`, number or boolean item there raises.
 */
module UkLobbying {
  import opened Common
  import opened Text
  import opened Values

  /** A Python call that either returns a value or raises. */
  datatype Outcome<T> = Returns(value: T) | Raises

  /** The fields that may hold the client's name, tried in this order. */
  const NameFields: seq<string> := ["client", "clientName", "client_name", "name", "organisation"]

  /** The keys under which a dict answer may hold its list of items, tried in this order. */
  const ResultKeys: seq<string> := ["results", "data", "items", "clients"]

  // ---------------------------------------------------------------------
  // extract_client_from_json
  // ---------------------------------------------------------------------

  /** Python's `field in item` for a JSON value. */
  function Membership(item: Value, field: string): Outcome<bool> {
    match item
    case Dict(m) => Returns(field in m)
    case Str(s) => Returns(Contains(s, field))
    case List(xs) => Returns(Str(field) in xs)
    case _ => Raises
  }

  /** The index of the first name field at or after `i` that is `in item`. */
  function FirstMemberFrom(item: Value, i: nat): Outcome<Option<nat>>
    requires i <= |NameFields|
    decreases |NameFields| - i
  {
    if i == |NameFields| then Returns(None)
    else
      match Membership(item, NameFields[i])
      case Raises => Raises
      case Returns(found) => if found then Returns(Some(i)) else FirstMemberFrom(item, i + 1)
  }

  /** `item.get(key, default)`. */
  function GetOr(m: map<string, Value>, key: string, default: Value): Value {
    if key in m then m[key] else default
  }

  /** The dict literal of lines 130-137. */
  function ClientRecord(m: map<string, Value>, firmName: string, clientName: Value): Record {
    map[
      "firm_name" := Str(firmName),
      "firm_registration_number" := GetOr(m, "registrationNumber", Get(m, "registration_number")),
      "client_name" := clientName,
      "client_registration_number" := GetOr(m, "clientRegistrationNumber", Get(m, "client_registration_number")),
      "start_date" := GetOr(m, "startDate", Get(m, "start_date")),
      "end_date" := GetOr(m, "endDate", Get(m, "end_date"))
    ]
  }

  /** What `extract_client_from_json(item, firm_name)` returns, or that it raises. */
  function Extract(item: Value, firmName: string): Outcome<Option<Record>> {
    match FirstMemberFrom(item, 0)
    case Raises => Raises
    case Returns(found) =>
      if found.None? then Returns(None)
      else if !item.Dict? then Raises
      else
        var v := item.fields[NameFields[found.value]];
        if !Truthy(v) then Returns(None) else Returns(Some(ClientRecord(item.fields, firmName, v)))
  }

  /** `extract_client_from_json(item, firm_name)`: the loop over the name fields, then the record. */
  method ExtractClientFromJson(item: Value, firmName: string) returns (out: Outcome<Option<Record>>)
    ensures out == Extract(item, firmName)
  {
    var clientName := Null;
    var i := 0;
    while i < |NameFields|
      invariant i <= |NameFields|
      invariant FirstMemberFrom(item, 0) == FirstMemberFrom(item, i)
    {
      var member := Membership(item, NameFields[i]);
      if member.Raises? {
        return Raises;
      }
      if member.value {
        if !item.Dict? {
          return Raises;
        }
        clientName := item.fields[NameFields[i]];
        break;
      }
      i := i + 1;
    }
    if !Truthy(clientName) {
      return Returns(None);
    }
    return Returns(Some(ClientRecord(item.fields, firmName, clientName)));
  }

  /** In a dict, the first name field present decides: its value is the name. */
  lemma {:induction false} FirstPresentDecides(m: map<string, Value>, i: nat, j: nat)
    requires j <= i < |NameFields| && NameFields[i] in m
    requires forall k | 0 <= k < i :: NameFields[k] !in m
    ensures FirstMemberFrom(Dict(m), j) == Returns(Some(i))
    decreases i - j
  {
    if j < i {
      FirstPresentDecides(m, i, j + 1);
    }
  }

  /**
   * A dict item gives a record exactly when its first present name field
   * holds a truthy value; a later field is never consulted, so a falsy
   * first field gives `None` whatever follows.
   */
  lemma ExtractFirstPresent(m: map<string, Value>, firmName: string, i: nat)
    requires i < |NameFields| && NameFields[i] in m
    requires forall k | 0 <= k < i :: NameFields[k] !in m
    ensures Extract(Dict(m), firmName) ==
      if Truthy(m[NameFields[i]]) then Returns(Some(ClientRecord(m, firmName, m[NameFields[i]]))) else Returns(None)
  {
    FirstPresentDecides(m, i, 0);
  }

  lemma {:induction false} NoNameFrom(m: map<string, Value>, j: nat)
    requires j <= |NameFields|
    requires forall k | 0 <= k < |NameFields| :: NameFields[k] !in m
    ensures FirstMemberFrom(Dict(m), j) == Returns(None)
    decreases |NameFields| - j
  {
    if j < |NameFields| {
      NoNameFrom(m, j + 1);
    }
  }

  /** A dict item without any of the name fields gives `None`. */
  lemma ExtractNoName(m: map<string, Value>, firmName: string)
    requires forall k | 0 <= k < |NameFields| :: NameFields[k] !in m
    ensures Extract(Dict(m), firmName) == Returns(None)
  {
    NoNameFrom(m, 0);
  }

  /** A dict item never raises. */
  lemma ExtractDictReturns(m: map<string, Value>, firmName: string)
    ensures Extract(Dict(m), firmName).Returns?
  {
    if forall k | 0 <= k < |NameFields| :: NameFields[k] !in m {
      ExtractNoName(m, firmName);
    } else {
      var i := FirstPresentIndex(m);
      ExtractFirstPresent(m, firmName, i);
    }
  }

  lemma FirstPresentIndex(m: map<string, Value>) returns (i: nat)
    requires exists k | 0 <= k < |NameFields| :: NameFields[k] in m
    ensures i < |NameFields| && NameFields[i] in m && forall k | 0 <= k < i :: NameFields[k] !in m
  {
    i := 0;
    while NameFields[i] !in m
      invariant i < |NameFields| && forall k | 0 <= k < i :: NameFields[k] !in m
      decreases |NameFields| - i
    {
      i := i + 1;
    }
  }

  /** A `None`, number or boolean item raises at the first `in` test. */
  lemma ExtractScalarRaises(item: Value, firmName: string)
    requires item.Null? || item.Bool? || item.Num?
    ensures Extract(item, firmName) == Raises
  {
  }

  /**
   * The record carries the firm and the name; every other field takes the
   * camelCase key when present, even with a `None` value, and the
   * snake_case key only when the camelCase one is absent.
   */
  lemma CamelCaseFirst(m: map<string, Value>, firmName: string, clientName: Value)
    ensures var r := ClientRecord(m, firmName, clientName);
      && r.Keys == {"firm_name", "firm_registration_number", "client_name",
                    "client_registration_number", "start_date", "end_date"}
      && r["firm_name"] == Str(firmName) && r["client_name"] == clientName
      && ("startDate" in m ==> r["start_date"] == m["startDate"])
      && ("startDate" !in m ==> r["start_date"] == Get(m, "start_date"))
      && ("endDate" in m ==> r["end_date"] == m["endDate"])
      && ("endDate" !in m ==> r["end_date"] == Get(m, "end_date"))
      && ("registrationNumber" in m ==> r["firm_registration_number"] == m["registrationNumber"])
      && ("registrationNumber" !in m ==> r["firm_registration_number"] == Get(m, "registration_number"))
      && ("clientRegistrationNumber" in m ==> r["client_registration_number"] == m["clientRegistrationNumber"])
      && ("clientRegistrationNumber" !in m ==> r["client_registration_number"] == Get(m, "client_registration_number"))
  {
  }

  // ---------------------------------------------------------------------
  // parse_json_results
  // ---------------------------------------------------------------------

  /** Lines 101-105: the records of the dict items of a list answer, in order; other items are skipped. */
  function FromListItems(xs: seq<Value>, firmName: string): seq<Record> {
    if xs == [] then []
    else
      var prev := FromListItems(xs[..|xs| - 1], firmName);
      var item := xs[|xs| - 1];
      if item.Dict? then
        match Extract(item, firmName)
        case Returns(Some(r)) => prev + [r]
        case _ => prev
      else prev
  }

  /** Lines 110-113: the records of every item of a dict answer's list, with no type test on the items. */
  function FromDictItems(xs: seq<Value>, firmName: string): Outcome<seq<Record>> {
    if xs == [] then Returns([])
    else
      match FromDictItems(xs[..|xs| - 1], firmName)
      case Raises => Raises
      case Returns(prev) =>
        match Extract(xs[|xs| - 1], firmName)
        case Raises => Raises
        case Returns(found) => if found.Some? then Returns(prev + [found.value]) else Returns(prev)
  }

  /** The first of the result keys that the dict has, with a list under it. */
  function FirstListKey(m: map<string, Value>, i: nat): Option<string>
    requires i <= |ResultKeys|
    decreases |ResultKeys| - i
  {
    if i == |ResultKeys| then None
    else if ResultKeys[i] in m && m[ResultKeys[i]].List? then Some(ResultKeys[i])
    else FirstListKey(m, i + 1)
  }

  /** What `parse_json_results(data, firm_name)` returns, or that it raises. */
  function Parse(data: Value, firmName: string): Outcome<seq<Record>> {
    match data
    case List(xs) => Returns(FromListItems(xs, firmName))
    case Dict(m) =>
      (match FirstListKey(m, 0)
       case None => Returns([])
       case Some(k) => FromDictItems(m[k].items, firmName))
    case _ => Returns([])
  }

  /** Lines 100-105: the loop over a list answer. */
  method ParseList(xs: seq<Value>, firmName: string) returns (clients: seq<Record>)
    ensures clients == FromListItems(xs, firmName)
  {
    clients := [];
    for i := 0 to |xs|
      invariant clients == FromListItems(xs[..i], firmName)
    {
      assert xs[..i + 1][..i] == xs[..i];
      var item := xs[i];
      if item.Dict? {
        ExtractDictReturns(item.fields, firmName);
        var client := ExtractClientFromJson(item, firmName);
        if client.value.Some? {
          clients := clients + [client.value.value];
        }
      }
    }
    assert xs[..|xs|] == xs;
  }

  /** Lines 110-113: the loop over a dict answer's list; an item that raises ends it. */
  method ParseDictItems(xs: seq<Value>, firmName: string) returns (out: Outcome<seq<Record>>)
    ensures out == FromDictItems(xs, firmName)
  {
    var clients := [];
    for i := 0 to |xs|
      invariant FromDictItems(xs[..i], firmName) == Returns(clients)
    {
      assert xs[..i + 1][..i] == xs[..i];
      var client := ExtractClientFromJson(xs[i], firmName);
      if client.Raises? {
        RaisesOnward(xs, i + 1, firmName);
        return Raises;
      }
      if client.value.Some? {
        clients := clients + [client.value.value];
      }
    }
    assert xs[..|xs|] == xs;
    return Returns(clients);
  }

  /** Once a prefix raises, every longer prefix raises. */
  lemma {:induction false} RaisesOnward(xs: seq<Value>, i: nat, firmName: string)
    requires 0 < i <= |xs| && FromDictItems(xs[..i], firmName) == Raises
    ensures FromDictItems(xs, firmName) == Raises
    decreases |xs| - i
  {
    if i < |xs| {
      assert xs[..i + 1][..i] == xs[..i];
      RaisesOnward(xs, i + 1, firmName);
    } else {
      assert xs[..i] == xs;
    }
  }

  /** `parse_json_results(data, firm_name)`. */
  method ParseJsonResults(data: Value, firmName: string) returns (out: Outcome<seq<Record>>)
    ensures out == Parse(data, firmName)
  {
    if data.List? {
      var clients := ParseList(data.items, firmName);
      return Returns(clients);
    } else if data.Dict? {
      var i := 0;
      while i < |ResultKeys|
        invariant i <= |ResultKeys|
        invariant FirstListKey(data.fields, 0) == FirstListKey(data.fields, i)
      {
        var key := ResultKeys[i];
        if key in data.fields && data.fields[key].List? {
          out := ParseDictItems(data.fields[key].items, firmName);
          return;
        }
        i := i + 1;
      }
      return Returns([]);
    }
    return Returns([]);
  }

  /** A list answer never raises, and every record it gives comes from one of its dict items. */
  lemma {:induction false} FromListItemsFrom(xs: seq<Value>, firmName: string, r: Record)
    requires r in FromListItems(xs, firmName)
    ensures exists i | 0 <= i < |xs| :: xs[i].Dict? && Extract(xs[i], firmName) == Returns(Some(r))
  {
    var init := xs[..|xs| - 1];
    if r in FromListItems(init, firmName) {
      FromListItemsFrom(init, firmName, r);
      var i :| 0 <= i < |init| && init[i].Dict? && Extract(init[i], firmName) == Returns(Some(r));
      assert xs[i] == init[i];
    }
  }

  /** Every dict item of a list answer that yields a record has its record in the answer. */
  lemma {:induction false} FromListItemsHas(xs: seq<Value>, firmName: string, i: nat, r: Record)
    requires i < |xs| && xs[i].Dict? && Extract(xs[i], firmName) == Returns(Some(r))
    ensures r in FromListItems(xs, firmName)
  {
    var init := xs[..|xs| - 1];
    if i < |init| {
      FromListItemsHas(init, firmName, i, r);
      assert xs[i] == init[i];
    }
  }

  /** What one item of a list answer contributes: the record of a dict item whose extraction gives one. */
  function ListPick(item: Value, firmName: string): Option<Record> {
    if item.Dict? then
      match Extract(item, firmName)
      case Returns(Some(r)) => Some(r)
      case _ => None
    else None
  }

  function ListPicker(firmName: string): Value -> Option<Record> {
    item => ListPick(item, firmName)
  }

  /**
   * A list answer is, in order, one record per dict item whose extraction
   * gives a record: no such item is skipped or repeated, and nothing else
   * contributes.
   */
  lemma {:induction false} FromListItemsPicked(xs: seq<Value>, firmName: string)
    ensures PickedBy(FromListItems(xs, firmName), xs, ListPicker(firmName), Hits(xs, ListPicker(firmName)))
  {
    var f := ListPicker(firmName);
    if xs == [] {
      PickedEmpty(f);
    } else {
      var init := xs[..|xs| - 1];
      var x := xs[|xs| - 1];
      FromListItemsPicked(init, firmName);
      PickedSnoc(FromListItems(init, firmName), init, x, f);
      assert init + [x] == xs;
      assert f(x) == ListPick(x, firmName);
    }
  }

  /** What one item of a dict answer's list contributes, when its extraction returns. */
  function DictPick(item: Value, firmName: string): Option<Record> {
    match Extract(item, firmName)
    case Returns(Some(r)) => Some(r)
    case _ => None
  }

  function DictPicker(firmName: string): Value -> Option<Record> {
    item => DictPick(item, firmName)
  }

  /**
   * A dict answer's list raises exactly when one of its items does; when
   * none does, it is, in order, one record per item whose extraction gives
   * a record, with none skipped or repeated.
   */
  lemma {:induction false} FromDictItemsPicked(xs: seq<Value>, firmName: string)
    ensures FromDictItems(xs, firmName) == Raises
      <==> exists i | 0 <= i < |xs| :: Extract(xs[i], firmName) == Raises
    ensures FromDictItems(xs, firmName).Returns? ==>
      PickedBy(FromDictItems(xs, firmName).value, xs, DictPicker(firmName), Hits(xs, DictPicker(firmName)))
  {
    var f := DictPicker(firmName);
    if xs == [] {
      PickedEmpty(f);
    } else {
      var init := xs[..|xs| - 1];
      var x := xs[|xs| - 1];
      FromDictItemsPicked(init, firmName);
      assert init + [x] == xs;
      forall i | 0 <= i < |init| ensures xs[i] == init[i] { }
      match FromDictItems(init, firmName)
      case Raises =>
        var i :| 0 <= i < |init| && Extract(init[i], firmName) == Raises;
        assert Extract(xs[i], firmName) == Raises;
      case Returns(prev) =>
        if Extract(x, firmName) == Raises {
          assert Extract(xs[|xs| - 1], firmName) == Raises;
        } else {
          forall i | 0 <= i < |xs| ensures Extract(xs[i], firmName) != Raises {
            if i < |init| {
              assert xs[i] == init[i];
            }
          }
          PickedSnoc(prev, init, x, f);
          assert f(x) == DictPick(x, firmName);
        }
    }
  }

  /** Items other than dicts add nothing to a list answer. */
  lemma {:induction false} FromListItemsLength(xs: seq<Value>, firmName: string)
    ensures |FromListItems(xs, firmName)| <= |xs|
  {
    if xs != [] {
      FromListItemsLength(xs[..|xs| - 1], firmName);
    }
  }

  /** Only the first result key holding a list is read; a non-list value under an earlier key is passed over. */
  lemma {:induction false} FirstListKeyFirst(m: map<string, Value>, i: nat, j: nat)
    requires j <= i < |ResultKeys| && ResultKeys[i] in m && m[ResultKeys[i]].List?
    requires forall k | 0 <= k < i :: !(ResultKeys[k] in m && m[ResultKeys[k]].List?)
    ensures FirstListKey(m, j) == Some(ResultKeys[i])
    decreases i - j
  {
    if j < i {
      FirstListKeyFirst(m, i, j + 1);
    }
  }

  lemma {:induction false} NoListKeyFrom(m: map<string, Value>, j: nat)
    requires j <= |ResultKeys|
    requires forall k | 0 <= k < |ResultKeys| :: !(ResultKeys[k] in m && m[ResultKeys[k]].List?)
    ensures FirstListKey(m, j).None?
    decreases |ResultKeys| - j
  {
    if j < |ResultKeys| {
      NoListKeyFrom(m, j + 1);
    }
  }

  /** Answers that are neither a list nor a dict, and dicts without a list under a result key, give no records. */
  lemma OtherShapesEmpty(data: Value, firmName: string)
    requires !data.List?
    requires data.Dict? ==> forall k | 0 <= k < |ResultKeys| :: !(ResultKeys[k] in data.fields && data.fields[ResultKeys[k]].List?)
    ensures Parse(data, firmName) == Returns([])
  {
    if data.Dict? {
      NoListKeyFrom(data.fields, 0);
    }
  }

  /** A `None` item in the `results` list makes the whole call raise. */
  lemma NullItemRaises(firmName: string)
    ensures Parse(Dict(map["results" := List([Null])]), firmName) == Raises
  {
    var m := map["results" := List([Null])];
    FirstListKeyFirst(m, 0, 0);
    assert [Null][..0] == [];
  }
}
