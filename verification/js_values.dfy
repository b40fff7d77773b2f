/** Loosely typed JavaScript values, as the frontend handles column-filter values and
    form records. Numbers are whole numbers (NaN and fractions are not modelled) and a
    `Date` is an instant on an abstract clock. */
module JsValues {
  import opened Wrappers
  import opened Strings

  datatype JsValue =
    | Undefined
    | Null
    | Bool(b: bool)
    | Num(n: int)
    | Str(s: string)
    | DateV(instant: int)
    | Arr(items: seq<JsValue>)
    | Obj(fields: map<string, JsValue>)

  /** JavaScript truthiness: `undefined`, `null`, `false`, `0` and `""` are falsy. */
  predicate Truthy(v: JsValue) {
    match v
    case Undefined => false
    case Null => false
    case Bool(b) => b
    case Num(n) => n != 0
    case Str(s) => |s| > 0
    case _ => true
  }

  /** Text of a nullish array element in `Array.prototype.join`: the empty string. */
  function ItemText(v: JsValue, dateText: int -> string): string
    decreases v, 3
  {
    if v.Undefined? || v.Null? then "" else JsString(v, dateText)
  }

  /** The texts `Array.prototype.join` puts between the commas. */
  function ItemTexts(v: JsValue, dateText: int -> string): (texts: seq<string>)
    requires v.Arr?
    ensures |texts| == |v.items|
    decreases v, 1
  {
    seq(|v.items|, i requires 0 <= i < |v.items| => ItemText(v.items[i], dateText))
  }

  /** `String(v)`. A `Date` renders through `dateText` (its `toString`), an array as its
      elements joined by ',' and a plain object as "[object Object]". */
  function JsString(v: JsValue, dateText: int -> string): string
    decreases v, 2
  {
    match v
    case Undefined => "undefined"
    case Null => "null"
    case Bool(b) => if b then "true" else "false"
    case Num(n) => IntToDecimal(n)
    case Str(s) => s
    case DateV(t) => dateText(t)
    case Arr(items) => Join(ItemTexts(v, dateText), ',')
    case Obj(_) => "[object Object]"
  }

  /** `String(n)` of a number reads back as the same number, and an array of one string
      renders as that string. */
  lemma JsStringRendering(n: int, s: string, dateText: int -> string)
    ensures ParseDecimal(JsString(Num(n), dateText)) == Some(n)
    ensures JsString(Arr([Str(s)]), dateText) == s
    ensures JsString(Arr([]), dateText) == ""
  {
    DecimalRoundTrip(n);
    assert ItemText(Str(s), dateText) == s;
    assert ItemTexts(Arr([Str(s)]), dateText) == [s];
  }
}
