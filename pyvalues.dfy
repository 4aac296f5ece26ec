/** Python values as the API layer passes them around: `None`, numbers, strings, lists and
    insertion-ordered dictionaries with string keys. Floats are not modelled (money is in
    integer cents). */
module PyValues {
  import opened Results

  datatype Value =
    | VNone
    | VBool(b: bool)
    | VInt(i: int)
    | VStr(s: string)
    | VList(elems: seq<Value>)
    | VDict(entries: seq<(string, Value)>)

  /** A dictionary: its entries in insertion order. */
  type Dict = seq<(string, Value)>

  /** `list(d.keys())`. */
  function Keys(d: Dict): (ks: seq<string>)
    ensures |ks| == |d|
    ensures forall i :: 0 <= i < |d| ==> ks[i] == d[i].0
  {
    if d == [] then [] else [d[0].0] + Keys(d[1..])
  }

  /** A Python dict never holds the same key twice. */
  ghost predicate DistinctKeys(d: Dict) {
    forall i, j :: 0 <= i < j < |d| ==> d[i].0 != d[j].0
  }

  /** `d.get(k)`: the value stored under `k`, if any. */
  function Lookup(d: Dict, k: string): (r: Option<Value>)
    ensures r.None? <==> k !in Keys(d)
    ensures r.Some? ==> (k, r.value) in d
  {
    if d == [] then None
    else if d[0].0 == k then Some(d[0].1)
    else Lookup(d[1..], k)
  }

  /** In a dictionary without repeated keys, the value found is the one stored. */
  lemma {:induction false} LookupStored(d: Dict, k: string, v: Value)
    requires DistinctKeys(d) && (k, v) in d
    ensures Lookup(d, k) == Some(v)
  {
    var i :| 0 <= i < |d| && d[i] == (k, v);
    if i > 0 {
      assert d[0].0 != k;
      assert d[1..][i - 1] == (k, v);
      LookupStored(d[1..], k, v);
    }
  }

  /** Python truthiness (`bool(v)`). */
  predicate Truthy(v: Value) {
    match v
    case VNone => false
    case VBool(b) => b
    case VInt(i) => i != 0
    case VStr(s) => s != []
    case VList(xs) => xs != []
    case VDict(d) => d != []
  }
}
