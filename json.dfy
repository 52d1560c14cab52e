/**
 * Document and JSON values as the import scripts and the faculty lists handle them, with the
 * JavaScript conversions the application applies to them: truthiness, property access with
 * `?.`, and `String(v)` (which is also what a template literal `${v}` produces).
 */
module Json {
  import opened Wrappers
  import opened JsStrings

  /**
   * A JSON value, or the Firestore server-timestamp sentinel a script writes. Numbers are
   * integers here; a missing property is `None` wherever a `Value` is looked up.
   */
  datatype Value =
    | Null
    | Bool(b: bool)
    | Num(n: int)
    | Str(s: string)
    | Arr(items: seq<Value>)
    | Obj(fields: map<string, Value>)
    | ServerTimestamp

  /** JavaScript truthiness: `null`, `false`, `0` and `""` are falsy, everything else is truthy. */
  predicate Truthy(v: Value) {
    match v
    case Null => false
    case Bool(b) => b
    case Num(n) => n != 0
    case Str(s) => s != ""
    case _ => true
  }

  /** Truthiness of a possibly missing property; `undefined` is falsy. */
  predicate Present(v: Option<Value>) {
    v.Some? && Truthy(v.value)
  }

  /** `x?.k`: the property of an object, `undefined` for a missing property or a non-object. */
  function Member(v: Option<Value>, k: string): (r: Option<Value>)
    ensures r.Some? ==> v.Some? && v.value.Obj? && k in v.value.fields && r.value == v.value.fields[k]
  {
    if v.Some? && v.value.Obj? && k in v.value.fields then Some(v.value.fields[k]) else None
  }

  /** A property chain `x?.k1?.k2...`. */
  function Path(v: Option<Value>, ks: seq<string>): Option<Value>
    decreases |ks|
  {
    if ks == [] then v else Path(Member(v, ks[0]), ks[1..])
  }

  /** `a || b` on a possibly missing value. */
  function OrElse(v: Option<Value>, fallback: Value): (r: Value)
    ensures Present(v) ==> r == v.value
    ensures !Present(v) ==> r == fallback
  {
    if Present(v) then v.value else fallback
  }

  /** `String(v)` of a value, and of `undefined`. */
  function ToStr(v: Option<Value>): string
    decreases if v.Some? then v.value else Null, 1
  {
    if v.None? then "undefined"
    else match v.value
      case Null => "null"
      case Bool(b) => if b then "true" else "false"
      case Num(n) => IntToString(n)
      case Str(s) => s
      case Arr(items) => JoinItems(v.value, items)
      case Obj(_) => "[object Object]"
      case ServerTimestamp => "[object Object]"
  }

  /** `items.join(",")`, where `null` and `undefined` elements become empty strings. */
  function JoinItems(parent: Value, items: seq<Value>): string
    requires forall i :: 0 <= i < |items| ==> items[i] < parent
    decreases parent, 0, |items|
  {
    if items == [] then ""
    else
      var first := if items[0].Null? then "" else ToStr(Some(items[0]));
      if |items| == 1 then first else first + "," + JoinItems(parent, items[1..])
  }

  /** `String(s)` is `s` for a string, and the converted text of a number reads back as it. */
  lemma ToStrFacts(v: Value)
    ensures v.Str? ==> ToStr(Some(v)) == v.s
    ensures v.Num? ==> ParseNumber(ToStr(Some(v))) == Some(v.n)
    ensures ToStr(None) == "undefined" && ToStr(Some(Null)) == "null"
  {
    if v.Num? {
      NumberOfIntToString(v.n);
    }
  }
}
