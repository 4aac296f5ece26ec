/** handle_response: the frontend's wrapper around a backend call. An error response or an
    exception gives `None`; otherwise the response's `data`, optionally cut down to the listed
    fields. The backend call itself is a parameter: its outcome is given. */
module ApiClient {
  import opened Results
  import opened PyValues

  /** What the wrapped call did: raised an exception, or returned a response object. */
  datatype CallOutcome = Raised | Returned(resp: Value)

  /** `{k: v for k, v in d.items() if k in fields}`. */
  function FilterKeys(d: Dict, fields: seq<string>): (r: Dict)
    ensures |r| <= |d|
    decreases |d|
  {
    if d == [] then []
    else (if d[0].0 in fields then [d[0]] else []) + FilterKeys(d[1..], fields)
  }

  /** The filtered dictionary holds exactly the entries whose key is listed. */
  lemma {:induction false} FilterKeysMembers(d: Dict, fields: seq<string>)
    ensures forall e :: e in FilterKeys(d, fields) <==> e in d && e.0 in fields
    decreases |d|
  {
    if d != [] {
      FilterKeysMembers(d[1..], fields);
      assert forall e :: e in d <==> e == d[0] || e in d[1..];
    }
  }

  /** Looking a key up in the filtered dictionary finds what the original holds for a listed key
      and nothing for any other. */
  lemma {:induction false} FilterKeysLookup(d: Dict, fields: seq<string>, k: string)
    ensures Lookup(FilterKeys(d, fields), k) == if k in fields then Lookup(d, k) else None
    decreases |d|
  {
    if d != [] {
      FilterKeysLookup(d[1..], fields, k);
      var rest := FilterKeys(d[1..], fields);
      if d[0].0 in fields {
        var r := [d[0]] + rest;
        assert FilterKeys(d, fields) == r;
        assert r[0] == d[0] && r[1..] == rest;
        if d[0].0 == k {
          assert Lookup(r, k) == Some(d[0].1);
        } else {
          assert Lookup(r, k) == Lookup(rest, k);
        }
      } else {
        assert FilterKeys(d, fields) == rest;
        if d[0].0 != k {
          assert Lookup(d, k) == Lookup(d[1..], k);
        }
      }
    }
  }

  /** Filtering again by the same fields changes nothing. */
  lemma {:induction false} FilterKeysIdempotent(d: Dict, fields: seq<string>)
    ensures FilterKeys(FilterKeys(d, fields), fields) == FilterKeys(d, fields)
    decreases |d|
  {
    if d != [] {
      FilterKeysIdempotent(d[1..], fields);
      var rest := FilterKeys(d[1..], fields);
      if d[0].0 in fields {
        var r := [d[0]] + rest;
        assert FilterKeys(d, fields) == r;
        assert r[0] == d[0] && r[1..] == rest;
        assert FilterKeys(r, fields) == [d[0]] + FilterKeys(rest, fields);
      } else {
        assert FilterKeys(d, fields) == rest;
      }
    }
  }

  /** `[{...} for item in data]`: each element filtered; `None` when an element is not a
      dictionary (its `.items()` raises). */
  function FilterEach(items: seq<Value>, fields: seq<string>): (r: Option<seq<Value>>)
    ensures r.Some? <==> forall i :: 0 <= i < |items| ==> items[i].VDict?
    ensures r.Some? ==> |r.value| == |items|
    ensures r.Some? ==> forall i :: 0 <= i < |items| ==> r.value[i] == VDict(FilterKeys(items[i].entries, fields))
  {
    if forall i :: 0 <= i < |items| ==> items[i].VDict? then
      Some(seq(|items|, i requires 0 <= i < |items| => VDict(FilterKeys(items[i].entries, fields))))
    else None
  }

  /** Python truthiness of `fields`: `None` or an empty list means no filtering. */
  predicate Filtering(fields: Option<seq<string>>) {
    fields.Some? && fields.value != []
  }

  /** handle_response(func, ..., fields): the value the frontend receives; `VNone` is Python's
      `None`. */
  function HandleResponse(call: CallOutcome, fields: Option<seq<string>>): (r: Value)
    ensures call.Raised? ==> r == VNone
    ensures call.Returned? && !call.resp.VDict? ==> r == VNone
    ensures (call.Returned? && call.resp.VDict? &&
             Lookup(call.resp.entries, "status") == Some(VStr("error"))) ==> r == VNone
    ensures (call.Returned? && call.resp.VDict? &&
             Lookup(call.resp.entries, "status") != Some(VStr("error")) && Filtering(fields) &&
             !Lookup(call.resp.entries, "data").GetOr(VNone).VList? &&
             !Lookup(call.resp.entries, "data").GetOr(VNone).VDict?) ==>
            r == Lookup(call.resp.entries, "data").GetOr(VNone)
  {
    match call
    case Raised => VNone
    case Returned(resp) =>
      if !resp.VDict? then VNone
      else if Lookup(resp.entries, "status") == Some(VStr("error")) then VNone
      else
        var data := Lookup(resp.entries, "data").GetOr(VNone);
        if !Filtering(fields) then data
        else match data
          case VList(xs) =>
            var filtered := FilterEach(xs, fields.value);
            if filtered.None? then VNone else VList(filtered.value)
          case VDict(d) => VDict(FilterKeys(d, fields.value))
          case _ => data
  }

  /** A successful response with no fields to filter on yields its `data` unchanged, and
      `None` when it has none. */
  lemma UnfilteredIsData(resp: Dict, fields: Option<seq<string>>)
    requires Lookup(resp, "status") != Some(VStr("error"))
    requires !Filtering(fields)
    ensures "data" in Keys(resp) ==> HandleResponse(Returned(VDict(resp)), fields) == Lookup(resp, "data").value
    ensures "data" !in Keys(resp) ==> HandleResponse(Returned(VDict(resp)), fields) == VNone
  {
  }

  /** Filtered dictionary data keeps exactly the listed keys, with their values. */
  lemma FilteredDictData(resp: Dict, fields: seq<string>, d: Dict)
    requires Lookup(resp, "status") != Some(VStr("error"))
    requires Lookup(resp, "data") == Some(VDict(d))
    requires fields != []
    ensures HandleResponse(Returned(VDict(resp)), Some(fields)) == VDict(FilterKeys(d, fields))
    ensures forall k :: Lookup(FilterKeys(d, fields), k) == if k in fields then Lookup(d, k) else None
  {
    forall k {
      FilterKeysLookup(d, fields, k);
    }
  }

  /** Filtered list data keeps its length and order, each element filtered the same way. */
  lemma FilteredListData(resp: Dict, fields: seq<string>, xs: seq<Value>)
    requires Lookup(resp, "status") != Some(VStr("error"))
    requires Lookup(resp, "data") == Some(VList(xs))
    requires fields != []
    requires forall i :: 0 <= i < |xs| ==> xs[i].VDict?
    ensures var r := HandleResponse(Returned(VDict(resp)), Some(fields));
      r.VList? && |r.elems| == |xs| &&
      forall i :: 0 <= i < |xs| ==> r.elems[i] == VDict(FilterKeys(xs[i].entries, fields))
  {
    var filtered := FilterEach(xs, fields);
    assert filtered.Some?;
  }

  /** A list holding something other than a dictionary raises inside the wrapper, which then
      gives `None`. */
  lemma FilteredListRaises(resp: Dict, fields: seq<string>, xs: seq<Value>, i: int)
    requires Lookup(resp, "status") != Some(VStr("error"))
    requires Lookup(resp, "data") == Some(VList(xs))
    requires fields != []
    requires 0 <= i < |xs| && !xs[i].VDict?
    ensures HandleResponse(Returned(VDict(resp)), Some(fields)) == VNone
  {
    var filtered := FilterEach(xs, fields);
    assert filtered.None?;
  }
}
