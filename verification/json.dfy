/**
  Decoded JSON request bodies and row attributes, with Python's truthiness.
  Numbers are integers only.
*/
module Json {
  import opened Wrappers

  datatype Json =
    | JNull
    | JBool(b: bool)
    | JInt(i: int)
    | JStr(s: string)
    | JArr(items: seq<Json>)
    | JObj(fields: map<string, Json>)

  type Object = map<string, Json>

  /** Python truthiness: `None`, `False`, `0`, `''`, `[]` and `{}` are false. */
  predicate Truthy(j: Json) {
    match j
    case JNull => false
    case JBool(b) => b
    case JInt(i) => i != 0
    case JStr(s) => s != []
    case JArr(xs) => |xs| > 0
    case JObj(m) => |m| > 0
  }

  /** `data.get(key)`: a missing key reads as `None`. */
  function Get(o: Object, key: string): (r: Json)
    ensures key !in o ==> r == JNull
  {
    if key in o then o[key] else JNull
  }

  /** `data.get(key, default)`: the default is used only when the key is absent. */
  function GetOr(o: Object, key: string, default: Json): (r: Json)
    ensures key in o ==> r == o[key]
  {
    if key in o then o[key] else default
  }

  /**
    The value a new row stores in a column that has a default, given the value
    the constructor was handed: the ORM leaves a `None` attribute out of the
    INSERT, so a null takes the column default just as a missing key does.
  */
  function Inserted(given: Json, columnDefault: Json): (r: Json)
    ensures r == JNull <==> given == JNull && columnDefault == JNull
    ensures given != JNull ==> r == given
  {
    if given == JNull then columnDefault else given
  }

  /** `not data` for a request body: no JSON object at all, or an empty one. */
  predicate Blank(body: Option<Object>) {
    body.None? || |body.value| == 0
  }

  /**
    The whitelisted partial update `for f in fields: if f in data: setattr(obj, f, data[f])`:
    every whitelisted key present in the request takes the request's value, and
    every other attribute keeps its value (or stays absent).
  */
  function Assign(attrs: Object, data: Object, fields: set<string>): (r: Object)
    ensures forall k :: k in fields && k in data ==> k in r && r[k] == data[k]
    ensures forall k :: k !in fields || k !in data ==> (k in r <==> k in attrs)
    ensures forall k :: (k !in fields || k !in data) && k in attrs ==> r[k] == attrs[k]
  {
    map k | k in attrs.Keys + (fields * data.Keys) ::
      if k in fields && k in data then data[k] else attrs[k]
  }

  /** Decimal digits of a natural number, most significant first. */
  function Digits(n: nat): (r: string)
    ensures |r| > 0
    ensures forall k :: 0 <= k < |r| ==> '0' <= r[k] <= '9'
  {
    var d := ['0' + (n % 10) as char];
    if n < 10 then d else Digits(n / 10) + d
  }

  /** Python's `str()` of a decoded scalar, as an f-string renders it. */
  function Format(j: Json): (r: string)
    ensures j.JStr? ==> r == j.s
  {
    match j
    case JNull => "None"
    case JBool(b) => if b then "True" else "False"
    case JInt(i) => if i < 0 then "-" + Digits(-i) else Digits(i)
    case JStr(s) => s
    case JArr(_) => "[...]"
    case JObj(_) => "{...}"
  }
}
