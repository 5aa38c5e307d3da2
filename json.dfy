/** JSON values as the core sees them after `JSON.parse`, and the few
    JavaScript object operations it applies to them: property lookup,
    the object spread `{...o, k: v}`, truthiness and `String(value)`. */
module Json {
  import opened Wrappers
  import opened Strings

  /** A parsed JSON value. An object keeps its properties in enumeration
      order; numbers are integers. */
  datatype Json =
    | JNull
    | JBool(b: bool)
    | JNum(n: int)
    | JStr(s: string)
    | JArr(elems: seq<Json>)
    | JObj(fields: Fields)

  /** The properties of a JSON object, in enumeration order. */
  type Fields = seq<(string, Json)>

  /** `o[k]`: the value of the first property named `k`, if any. */
  function Lookup(fs: Fields, k: string): (r: Option<Json>)
    ensures r.Some? <==> exists i :: 0 <= i < |fs| && fs[i].0 == k
    ensures r.Some? ==> exists i :: 0 <= i < |fs| && fs[i] == (k, r.value)
  {
    if |fs| == 0 then None
    else if fs[0].0 == k then Some(fs[0].1)
    else Lookup(fs[1..], k)
  }

  /** `{...fs, [k]: v}`: the property `k` takes the value `v` in the place it
      already has, or is appended when `fs` has no such property. */
  function SetField(fs: Fields, k: string, v: Json): (r: Fields)
    ensures Lookup(r, k) == Some(v)
    ensures forall k' :: k' != k ==> Lookup(r, k') == Lookup(fs, k')
    ensures Lookup(fs, k).Some? ==> |r| == |fs|
    ensures Lookup(fs, k).Some? ==>
      forall i :: 0 <= i < |fs| ==> r[i].0 == fs[i].0 && (fs[i].0 != k ==> r[i] == fs[i])
    ensures Lookup(fs, k).None? ==> r == fs + [(k, v)]
  {
    if |fs| == 0 then [(k, v)]
    else if fs[0].0 == k then [(k, v)] + fs[1..]
    else [fs[0]] + SetField(fs[1..], k, v)
  }

  /** JavaScript truthiness of a JSON value: the falsy values JSON can hold
      are `null`, `false`, `0` and the empty string. */
  predicate Truthy(j: Json)
    ensures Truthy(j) <==> j != JNull && j != JBool(false) && j != JNum(0) && j != JStr("")
  {
    match j
    case JNull => false
    case JBool(b) => b
    case JNum(n) => n != 0
    case JStr(s) => s != ""
    case JArr(_) => true
    case JObj(_) => true
  }

  /** `String(j)`: the text a JSON value turns into when it is spliced into
      a string. Array elements that are `null` become empty. */
  function Text(j: Json): (r: string)
    ensures j.JStr? ==> r == j.s
    ensures j.JNum? && j.n >= 0 ==>
      |r| > 0 && (forall i :: 0 <= i < |r| ==> IsDigit(r[i])) && DecimalValue(r) == j.n
    ensures j.JNum? && j.n < 0 ==>
      |r| > 1 && r[0] == '-' && (forall i :: 1 <= i < |r| ==> IsDigit(r[i])) && DecimalValue(r[1..]) == -j.n
    ensures j.JArr? && |j.elems| == 0 ==> r == ""
    ensures j.JArr? && |j.elems| == 1 && j.elems[0].JStr? ==> r == j.elems[0].s
  {
    match j
    case JNull => "null"
    case JBool(b) => if b then "true" else "false"
    case JNum(n) =>
      NatTextValue(if n < 0 then -n else n);
      assert n < 0 ==> IntText(n)[1..] == NatText(-n);
      IntText(n)
    case JStr(s) => s
    case JArr(es) => Join(seq(|es|, i requires 0 <= i < |es| => if es[i].JNull? then "" else Text(es[i])), ",")
    case JObj(_) => "[object Object]"
  }
}
