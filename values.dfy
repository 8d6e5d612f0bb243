/**
 * The values the scrapers put in their record dicts. Records are Python
 * `dict`s from field names to JSON-shaped values: strings and `None` from
 * the HTML scrapers, anything JSON can hold from the UK register's API.
 */
module Values {
  import opened Common

  datatype Value =
    | Null
    | Bool(b: bool)
    | Num(n: int)
    | Str(s: string)
    | List(items: seq<Value>)
    | Dict(fields: map<string, Value>)

  /** One scraped record: a dict from field names to values. */
  type Record = map<string, Value>

  /** Python truthiness: `None`, `False`, `0`, `''`, `[]` and `{}` are false. */
  predicate Truthy(v: Value) {
    match v
    case Null => false
    case Bool(b) => b
    case Num(n) => n != 0
    case Str(s) => s != []
    case List(xs) => xs != []
    case Dict(m) => m != map[]
  }

  /** `record.get(key)`: `None` for a missing key. */
  function Get(r: Record, key: string): Value {
    if key in r then r[key] else Null
  }

  /**
   * A value the string helpers accept without raising: a string, or a falsy
   * value, which `if not x` turns away before any string method is called.
   */
  predicate TextLike(v: Value) {
    !Truthy(v) || v.Str?
  }

  /** The string a text-like value stands for; falsy values stand for `''`. */
  function TextOf(v: Value): (s: string)
    requires TextLike(v)
    ensures Truthy(v) <==> s != []
  {
    if v.Str? then v.s else ""
  }

  /** The `Optional[str]` a text-like value stands for: falsy values are `None`. */
  function OptionalText(v: Value): (o: Option<string>)
    requires TextLike(v)
    ensures o.Some? <==> Truthy(v)
    ensures o.Some? ==> o.value == v.s && o.value != []
  {
    if Truthy(v) then Some(v.s) else None
  }

  /** An `Optional[str]` stored back into a dict. */
  function FromOptional(o: Option<string>): (v: Value)
    ensures TextLike(v)
  {
    match o
    case None => Null
    case Some(s) => Str(s)
  }

  /**
   * The record dict the browser scrapers of the UK and French registers
   * build: always the same six keys, all holding strings, so a value with
   * six fields here; `AsRecord` gives the dict.
   */
  datatype ClientRow = ClientRow(
    firmName: string,
    firmRegistrationNumber: string,
    clientName: string,
    clientRegistrationNumber: string,
    startDate: string,
    endDate: string)

  /** A record with every field the empty string except the firm. */
  function BlankRow(firmName: string): ClientRow {
    ClientRow(firmName, "", "", "", "", "")
  }

  /** The dict the scraper appends to its results. */
  function AsRecord(row: ClientRow): (r: Record)
    ensures r.Keys == {"firm_name", "firm_registration_number", "client_name",
      "client_registration_number", "start_date", "end_date"}
    ensures forall k | k in r :: r[k].Str?
  {
    map[
      "firm_name" := Str(row.firmName),
      "firm_registration_number" := Str(row.firmRegistrationNumber),
      "client_name" := Str(row.clientName),
      "client_registration_number" := Str(row.clientRegistrationNumber),
      "start_date" := Str(row.startDate),
      "end_date" := Str(row.endDate)
    ]
  }
}
