/** Parsed input as the Python code sees it: the values `json.load` and
    `csv.DictReader` produce, dictionaries as ordered key/value sequences,
    and the few Python operations the store logic applies to them. */
module Values {

  datatype Option<+T> = None | Some(value: T)

  /** The exceptions the modelled code can raise. */
  datatype Error =
    | KeyError        // d[k] on a missing key
    | ValueError      // int(s) on a string that is not an integer
    | TypeError       // subscripting or iterating what is not a dict or list
    | AttributeError  // .get / .items on what is not a dict
    | SqliteError     // sqlite3.Error, here: a parameter that cannot be bound
    | FileNotFoundError  // the updater's database file does not exist

  datatype Result<+T> = Ok(value: T) | Fail(error: Error)

  /** A decoded JSON value or CSV cell (CSV cells are Str, or Null for a
      missing trailing cell). Floating-point numbers are not modelled. */
  datatype Value =
    | Null
    | Bool(b: bool)
    | Int(i: int)
    | Str(s: string)
    | List(items: seq<Value>)
    | Dict(entries: Record)

  /** A Python dict in insertion order. */
  type Record = seq<(string, Value)>

  predicate HasKey(r: Record, k: string) {
    exists i :: 0 <= i < |r| && r[i].0 == k
  }

  /** `d.get(k, default)`: the value of the first entry with key k. */
  function GetOr(r: Record, k: string, default: Value): (v: Value)
    ensures !HasKey(r, k) ==> v == default
    ensures HasKey(r, k) ==> exists i :: 0 <= i < |r| && r[i] == (k, v)
  {
    if r == [] then default
    else if r[0].0 == k then r[0].1
    else (
      assert HasKey(r, k) ==> HasKey(r[1..], k) by {
        if HasKey(r, k) { var i :| 0 <= i < |r| && r[i].0 == k; assert r[1..][i - 1].0 == k; }
      }
      var v := GetOr(r[1..], k, default);
      assert HasKey(r[1..], k) ==> exists i :: 0 <= i < |r| && r[i] == (k, v) by {
        if HasKey(r[1..], k) { var j :| 0 <= j < |r| - 1 && r[1..][j] == (k, v); assert r[j + 1] == (k, v); }
      }
      v)
  }

  /** `d.get(k)`. */
  function Get(r: Record, k: string): Value {
    GetOr(r, k, Null)
  }

  /** `d[k]`: KeyError when the key is missing. */
  function Lookup(r: Record, k: string): (res: Result<Value>)
    ensures res.Fail? <==> !HasKey(r, k)
    ensures res.Ok? ==> res.value == Get(r, k)
    ensures res.Fail? ==> res.error == KeyError
  {
    if HasKey(r, k) then Ok(Get(r, k)) else Fail(KeyError)
  }

  /** Python truthiness (`if x:`). */
  predicate Truthy(v: Value) {
    match v
    case Null => false
    case Bool(b) => b
    case Int(i) => i != 0
    case Str(s) => s != ""
    case List(items) => items != []
    case Dict(entries) => entries != []
  }

  predicate IsDigit(c: char) { '0' <= c <= '9' }

  predicate AllDigits(s: string) {
    |s| > 0 && forall i :: 0 <= i < |s| ==> IsDigit(s[i])
  }

  /** The value of a non-empty string of decimal digits. */
  function DigitsValue(s: string): (n: nat)
    requires AllDigits(s)
    decreases |s|
  {
    var d := (s[|s| - 1] as int) - ('0' as int);
    if |s| == 1 then d
    else DigitsValue(s[..|s| - 1]) * 10 + d
  }

  /** The integers `int(s)` accepts: an optional sign and decimal digits. */
  function ParseInt(s: string): Option<int> {
    if |s| > 0 && s[0] == '-' && AllDigits(s[1..]) then Some(-(DigitsValue(s[1..]) as int))
    else if |s| > 0 && s[0] == '+' && AllDigits(s[1..]) then Some(DigitsValue(s[1..]))
    else if AllDigits(s) then Some(DigitsValue(s))
    else None
  }

  /** Python's `int(v)`. */
  function ToInt(v: Value): (res: Result<int>)
    ensures v.Str? ==> (res.Ok? <==> ParseInt(v.s).Some?)
  {
    match v
    case Int(i) => Ok(i)
    case Bool(b) => Ok(if b then 1 else 0)
    case Str(s) => (match ParseInt(s) case Some(n) => Ok(n) case None => Fail(ValueError))
    case _ => Fail(TypeError)
  }

  /** What `for x in v` visits: list items, dict keys, string characters. */
  function Iterate(v: Value): Result<seq<Value>> {
    match v
    case List(items) => Ok(items)
    case Dict(entries) => Ok(seq(|entries|, i requires 0 <= i < |entries| => Str(entries[i].0)))
    case Str(s) => Ok(seq(|s|, i requires 0 <= i < |s| => Str([s[i]])))
    case _ => Fail(TypeError)
  }
}
