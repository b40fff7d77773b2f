/** The record shape guard `isColumnSchema` of frontend/src/lib/type-guards.ts. */
module TypeGuards {
  import opened JsValues
  import opened Strings

  /** `typeof v === "object"`: true of `null`, arrays, dates and plain objects. */
  predicate IsObjectType(v: JsValue) {
    v.Null? || v.Arr? || v.DateV? || v.Obj?
  }

  /** The `in` operator on an object-typed value, for own properties: a plain object's keys;
      an array's "length" and its decimal indexes. */
  predicate HasKey(v: JsValue, key: string)
    requires IsObjectType(v) && !v.Null?
  {
    match v
    case Obj(fields) => key in fields
    case Arr(items) => key == "length" || (exists i :: 0 <= i < |items| && key == IntToDecimal(i))
    case DateV(_) => false
  }

  const SchemaKeys: seq<string> := ["id", "nome", "cognome"]

  /** `isColumnSchema(obj)`: an object-typed, non-null value with the keys id, nome and
      cognome; the tests run left to right and stop at the first false one. */
  function IsColumnSchema(v: JsValue): bool {
    if !IsObjectType(v) then false
    else if v.Null? then false
    else if !HasKey(v, "id") then false
    else if !HasKey(v, "nome") then false
    else if !HasKey(v, "cognome") then false
    else true
  }

  /** Decimal renderings of indexes start with a digit, so "id" is never an array index. */
  lemma NoIndexKey(v: JsValue)
    requires v.Arr?
    ensures !HasKey(v, "id")
  {
    forall i | 0 <= i < |v.items| ensures "id" != IntToDecimal(i) {
      assert IntToDecimal(i)[0] != 'i';
    }
  }

  /** Only plain objects are accepted: arrays and dates lack the keys. */
  lemma OnlyPlainObjects(v: JsValue)
    ensures IsColumnSchema(v) ==> v.Obj?
  {
    if v.Arr? {
      NoIndexKey(v);
    }
  }

  /** `null` is rejected. */
  lemma NullRejected()
    ensures !IsColumnSchema(Null)
  {
  }

  /** A value whose `typeof` is not "object" is rejected. */
  lemma NonObjectRejected(v: JsValue)
    requires v.Undefined? || v.Bool? || v.Num? || v.Str?
    ensures !IsColumnSchema(v)
  {
  }

  /** A plain object is accepted iff it has the three keys. */
  lemma ObjectAcceptedIff(fields: map<string, JsValue>)
    ensures IsColumnSchema(Obj(fields)) <==> forall k :: k in SchemaKeys ==> k in fields
  {
    assert SchemaKeys[0] == "id" && SchemaKeys[1] == "nome" && SchemaKeys[2] == "cognome";
  }

  /** The key values are not inspected and keys other than the three do not matter: two
      objects that agree on which of id, nome and cognome they have are treated alike. */
  lemma OnlyKeyPresenceMatters(f: map<string, JsValue>, g: map<string, JsValue>)
    requires forall k :: k in SchemaKeys ==> (k in f <==> k in g)
    ensures IsColumnSchema(Obj(f)) == IsColumnSchema(Obj(g))
  {
    ObjectAcceptedIff(f);
    ObjectAcceptedIff(g);
  }
}
