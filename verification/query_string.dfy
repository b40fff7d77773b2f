/** A URL query as the ordered list of name/value pairs `URLSearchParams` holds and the
    backend receives; percent-encoding is transparent and is not modelled. */
module QueryString {

  type Query = seq<(string, string)>

  /** `getAll(name)`: the values paired with `name`, in order. */
  function Values(q: Query, name: string): seq<string> {
    if |q| == 0 then []
    else (if q[0].0 == name then [q[0].1] else []) + Values(q[1..], name)
  }

  function RemoveName(q: Query, name: string): (r: Query)
    ensures forall i :: 0 <= i < |r| ==> r[i].0 != name
  {
    if |q| == 0 then []
    else (if q[0].0 == name then [] else [q[0]]) + RemoveName(q[1..], name)
  }

  /** `set(name, value)`: the first pair named `name` takes the value and the later ones
      are removed; with no such pair, the pair is appended. */
  function SetParam(q: Query, name: string, value: string): Query {
    if |q| == 0 then [(name, value)]
    else if q[0].0 == name then [(name, value)] + RemoveName(q[1..], name)
    else [q[0]] + SetParam(q[1..], name, value)
  }

  /** `append(name, value)`. */
  function AppendParam(q: Query, name: string, value: string): Query {
    q + [(name, value)]
  }

  lemma {:induction false} ValuesAppend(a: Query, b: Query, name: string)
    ensures Values(a + b, name) == Values(a, name) + Values(b, name)
  {
    if |a| > 0 {
      ValuesAppend(a[1..], b, name);
      assert (a + b)[1..] == a[1..] + b;
    } else {
      assert a + b == b;
    }
  }

  lemma {:induction false} ValuesRemove(q: Query, name: string, other: string)
    ensures Values(RemoveName(q, name), other) == if other == name then [] else Values(q, other)
  {
    if |q| > 0 {
      ValuesRemove(q[1..], name, other);
      ValuesAppend(if q[0].0 == name then [] else [q[0]], RemoveName(q[1..], name), other);
    }
  }

  /** After `set`, `name` has exactly the new value and every other name keeps its values. */
  lemma {:induction false} ValuesSet(q: Query, name: string, value: string, other: string)
    ensures Values(SetParam(q, name, value), other) == if other == name then [value] else Values(q, other)
  {
    if |q| == 0 {
    } else if q[0].0 == name {
      ValuesRemove(q[1..], name, other);
      ValuesAppend([(name, value)], RemoveName(q[1..], name), other);
    } else {
      ValuesSet(q[1..], name, value, other);
      ValuesAppend([q[0]], SetParam(q[1..], name, value), other);
    }
  }

  /** After `append`, `name` has one more value, at the end. */
  lemma ValuesAppendParam(q: Query, name: string, value: string, other: string)
    ensures Values(AppendParam(q, name, value), other) == Values(q, other) + (if other == name then [value] else [])
  {
    ValuesAppend(q, [(name, value)], other);
  }

  /** A conditional `set`; the value is only read when `given` holds. */
  function SetIf(q: Query, given: bool, name: string, value: string): Query {
    if given then SetParam(q, name, value) else q
  }

  lemma ValuesSetIf(q: Query, given: bool, name: string, value: string, other: string)
    ensures Values(SetIf(q, given, name, value), other) ==
      if given && other == name then [value] else Values(q, other)
  {
    if given { ValuesSet(q, name, value, other); }
  }

  /** One `append` per element of `values`. */
  function AppendAll(q: Query, name: string, values: seq<string>): Query
    decreases |values|
  {
    if |values| == 0 then q else AppendAll(AppendParam(q, name, values[0]), name, values[1..])
  }

  lemma {:induction false} ValuesAppendAll(q: Query, name: string, values: seq<string>, other: string)
    ensures Values(AppendAll(q, name, values), other) == Values(q, other) + (if other == name then values else [])
    decreases |values|
  {
    if |values| > 0 {
      ValuesAppendParam(q, name, values[0], other);
      ValuesAppendAll(AppendParam(q, name, values[0]), name, values[1..], other);
      assert values == [values[0]] + values[1..];
    }
  }
}
