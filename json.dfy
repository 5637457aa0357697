/**
 * Decoded JSON / PHP array values as the controllers see them, with PHP's
 * truthiness, its (string) cast and the `??` operator.
 */
module Json {
  import opened PhpStrings

  datatype Value = Null | Bool(b: bool) | Int(i: int) | Str(s: string) | List(items: seq<Value>)

  /** PHP truthiness: null, false, 0, "", "0" and [] are falsy. */
  predicate Truthy(v: Value) {
    match v
    case Null => false
    case Bool(b) => b
    case Int(i) => i != 0
    case Str(s) => PhpStrings.Truthy(s)
    case List(items) => items != []
  }

  /** PHP's (string) cast: null and false give "", true gives "1", an array gives "Array". */
  function ToString(v: Value): string {
    match v
    case Null => ""
    case Bool(b) => if b then "1" else ""
    case Int(i) => IntToString(i)
    case Str(s) => s
    case List(_) => "Array"
  }

  /** `isset($data[k])`: the key is there and its value is not null. */
  predicate Present(data: map<string, Value>, k: string) {
    k in data && data[k] != Null
  }

  /**
   * `$data[k1] ?? $data[k2] ?? ... ?? default`: the value of the first key that
   * is present and not null; an empty string or false does not fall through.
   */
  function Coalesce(data: map<string, Value>, keys: seq<string>, default: Value): (r: Value)
    ensures (forall i :: 0 <= i < |keys| ==> !Present(data, keys[i])) ==> r == default
    ensures forall i ::
      (0 <= i < |keys| && Present(data, keys[i]) && forall j :: 0 <= j < i ==> !Present(data, keys[j]))
      ==> r == data[keys[i]]
  {
    if keys == [] then default
    else if Present(data, keys[0]) then data[keys[0]]
    else Coalesce(data, keys[1..], default)
  }

  function StrList(xs: seq<string>): (r: seq<Value>)
    ensures |r| == |xs| && forall i :: 0 <= i < |xs| ==> r[i] == Str(xs[i])
  {
    if xs == [] then [] else [Str(xs[0])] + StrList(xs[1..])
  }
}
