/** The values that flow through the advisor: what `json.loads` produces, what
    the stages return after reconciliation, and what the profile dictionaries hold.
    Python's `None` is `Null`; numbers are modelled as integers only. */
module Values {

  datatype Option<+T> = None | Some(value: T)

  datatype Value =
    | Null
    | Bool(b: bool)
    | Int(i: int)
    | Str(s: string)
    | List(items: seq<Value>)
    | Dict(fields: map<string, Value>)

  /** Python truthiness (`if v:`). */
  predicate Truthy(v: Value)
  {
    match v
    case Null => false
    case Bool(b) => b
    case Int(i) => i != 0
    case Str(s) => s != ""
    case List(items) => items != []
    case Dict(fields) => fields != map[]
  }

  /** The membership test `v in (None, "", [])`: only these three values count as blank,
      so `False`, `0` and `{}` are not blank although they are falsy. */
  predicate IsBlank(v: Value)
  {
    v == Null || v == Str("") || v == List([])
  }

  /** `d.get(k)`: the value under `k`, or `None` when the key is missing. */
  function Get(d: map<string, Value>, k: string): (v: Value)
    ensures k in d ==> v == d[k]
    ensures k !in d ==> v == Null
  {
    if k in d then d[k] else Null
  }

  lemma BlankIsFalsy(v: Value)
    ensures IsBlank(v) ==> !Truthy(v)
    ensures !Truthy(v) && !IsBlank(v) ==> v == Bool(false) || v == Int(0) || v == Dict(map[])
  {
  }

  /** A list of strings as a list value. */
  function StrList(names: seq<string>): (r: seq<Value>)
    ensures |r| == |names| && forall i :: 0 <= i < |names| ==> r[i] == Str(names[i])
  {
    seq(|names|, i requires 0 <= i < |names| => Str(names[i]))
  }
}
