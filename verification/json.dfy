/** The untyped JSON objects the application keeps in browser storage, sends in
    request bodies and reads out of tokens, and the browser's key-value storage
    itself. */
module Json {
  import opened Wrappers
  import opened Text

  /** A JSON primitive. Numbers are integers in this model. */
  datatype Value = Str(s: string) | Num(n: int) | Bool(b: bool) | Null

  /** A flat JSON object. A key that is absent reads as `undefined`. */
  type Record = map<string, Value>

  /** `r[key]`: `None` is `undefined`. Two `Field`s are `===` exactly when they
      are equal as options, since the values are primitives. */
  function Field(r: Record, key: string): Option<Value> {
    if key in r then Some(r[key]) else None
  }

  /** JavaScript truthiness of a primitive. */
  predicate Truthy(v: Value) {
    match v
    case Str(s) => s != ""
    case Num(n) => n != 0
    case Bool(b) => b
    case Null => false
  }

  /** Truthiness of a possibly `undefined` field. */
  predicate Present(f: Option<Value>) {
    f.Some? && Truthy(f.value)
  }

  /** `Number(v)`, as a comparison with a number applies it: numbers are
      themselves, `true` and `false` are 1 and 0, `null` is 0, and a
      non-empty string of decimal digits is its value. Any other string is
      `NaN` here (None), so it compares false. */
  function ToNumber(v: Value): Option<int> {
    match v
    case Num(n) => Some(n)
    case Bool(b) => Some(if b then 1 else 0)
    case Null => Some(0)
    case Str(s) =>
      if |s| > 0 && forall i :: 0 <= i < |s| ==> IsDigit(s[i]) then Some(ParseNat(s)) else None
  }

  /** A number written out in decimal converts back to itself. */
  lemma ToNumberOfDecimal(n: nat)
    ensures ToNumber(Str(NatToString(n))) == Some(n)
  {
    ParseNatToString(n);
  }

  /** `f || fallback`. */
  function OrElse(f: Option<Value>, fallback: Value): Value {
    if Present(f) then f.value else fallback
  }

  /** `{ ...r, key: f }` as it survives `JSON.stringify`: an `undefined` value
      leaves no key behind. */
  function Assign(r: Record, key: string, f: Option<Value>): Record {
    if f.Some? then r[key := f.value] else r - {key}
  }

  /** The JSON and base64 machinery the model does not interpret:
      `stringify` is `JSON.stringify`, `parse` is `JSON.parse` of a text holding
      a JSON object (None when `JSON.parse` throws), and `decodePayload` is the decoding of a token's
      middle segment (`atob` after the base64url substitutions, then
      `JSON.parse`). */
  datatype Codec = Codec(
    stringify: Record -> string,
    parse: string -> Option<Record>,
    decodePayload: string -> Option<Record>)

  /** `JSON.stringify(r)` is a non-empty text and `JSON.parse` of it gives
      back `r`. */
  ghost predicate RoundTrips(codec: Codec) {
    forall r :: codec.stringify(r) != "" && codec.parse(codec.stringify(r)) == Some(r)
  }
}

/** Browser `localStorage` as a map from keys to strings. */
module Storage {
  import opened Wrappers

  type Store = map<string, string>

  /** `localStorage.getItem(key)`: `None` is `null`. */
  function GetItem(st: Store, key: string): Option<string> {
    if key in st then Some(st[key]) else None
  }
}
