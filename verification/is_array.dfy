/** The runtime array guards of frontend/src/lib/is-array.ts. */
module IsArray {
  import opened JsValues

  /** The element types the guards test: `typeof` "number", "string", "boolean" and
      `instanceof Date`. */
  datatype Kind = NumberKind | StringKind | BooleanKind | DateKind

  predicate HasKind(v: JsValue, k: Kind) {
    match k
    case NumberKind => v.Num?
    case StringKind => v.Str?
    case BooleanKind => v.Bool?
    case DateKind => v.DateV?
  }

  /** `Array.prototype.every` with a kind test, scanning left to right. */
  function Every(items: seq<JsValue>, k: Kind): (r: bool)
    ensures r <==> forall i :: 0 <= i < |items| ==> HasKind(items[i], k)
  {
    if |items| == 0 then true
    else if !HasKind(items[0], k) then false
    else
      var rest := Every(items[1..], k);
      assert forall i :: 1 <= i < |items| ==> items[i] == items[1..][i - 1];
      rest
  }

  function IsArrayOfNumbers(v: JsValue): bool {
    v.Arr? && Every(v.items, NumberKind)
  }

  function IsArrayOfStrings(v: JsValue): bool {
    v.Arr? && Every(v.items, StringKind)
  }

  function IsArrayOfBooleans(v: JsValue): bool {
    v.Arr? && Every(v.items, BooleanKind)
  }

  /** Unlike the other three, the Date guard also demands a non-empty array. */
  function IsArrayOfDates(v: JsValue): bool {
    v.Arr? && |v.items| > 0 && Every(v.items, DateKind)
  }

  /** Each guard in terms of the elements: true iff the value is an array all of whose
      elements have the guard's type (and, for Dates, there is one). */
  lemma GuardsMeaning(v: JsValue)
    ensures IsArrayOfNumbers(v) <==> v.Arr? && forall i :: 0 <= i < |v.items| ==> v.items[i].Num?
    ensures IsArrayOfStrings(v) <==> v.Arr? && forall i :: 0 <= i < |v.items| ==> v.items[i].Str?
    ensures IsArrayOfBooleans(v) <==> v.Arr? && forall i :: 0 <= i < |v.items| ==> v.items[i].Bool?
    ensures IsArrayOfDates(v) <==> v.Arr? && |v.items| > 0 && forall i :: 0 <= i < |v.items| ==> v.items[i].DateV?
  {
    if v.Arr? {
      assert forall i :: 0 <= i < |v.items| ==> (HasKind(v.items[i], NumberKind) <==> v.items[i].Num?);
    }
  }

  /** A value that is not an array fails all four guards. */
  lemma NonArrayFailsAll(v: JsValue)
    requires !v.Arr?
    ensures !IsArrayOfNumbers(v) && !IsArrayOfStrings(v) && !IsArrayOfBooleans(v) && !IsArrayOfDates(v)
  {
  }

  /** The empty array passes the number, string and boolean guards but not the Date guard. */
  lemma EmptyArrayGuards()
    ensures IsArrayOfNumbers(Arr([])) && IsArrayOfStrings(Arr([])) && IsArrayOfBooleans(Arr([]))
    ensures !IsArrayOfDates(Arr([]))
  {
  }

  /** One element of another type falsifies a guard, whatever the other elements are. */
  lemma OneWrongElement(items: seq<JsValue>, i: int, k: Kind)
    requires 0 <= i < |items| && !HasKind(items[i], k)
    ensures !Every(items, k)
    ensures k == NumberKind ==> !IsArrayOfNumbers(Arr(items))
    ensures k == DateKind ==> !IsArrayOfDates(Arr(items))
  {
  }

  function GuardCount(v: JsValue): nat {
    (if IsArrayOfNumbers(v) then 1 else 0) + (if IsArrayOfStrings(v) then 1 else 0)
    + (if IsArrayOfBooleans(v) then 1 else 0) + (if IsArrayOfDates(v) then 1 else 0)
  }

  /** A non-empty array satisfies at most one guard: its first element has one type. */
  lemma AtMostOneGuard(v: JsValue)
    requires v.Arr? && |v.items| > 0
    ensures GuardCount(v) <= 1
  {
    var x := v.items[0];
    assert IsArrayOfNumbers(v) ==> x.Num?;
    assert IsArrayOfStrings(v) ==> x.Str?;
    assert IsArrayOfBooleans(v) ==> x.Bool?;
    assert IsArrayOfDates(v) ==> x.DateV?;
  }
}
