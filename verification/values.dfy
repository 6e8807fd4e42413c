/**
  The Python values a handler returns before the framework serialises them:
  integers, strings, lists, and dicts with string keys.
 */
module Values {

  datatype Value = Int(i: int) | Str(s: string) | List(items: seq<Value>)

  type Dict = map<string, Value>

  const ResultKey: string := "result"

  /** The one-entry dict `{"result": v}` both POST handlers return. */
  function WrapResult(v: Value): Dict
  {
    map[ResultKey := v]
  }

  /** A dict is `{"result": v}` exactly when "result" is its only key and maps to `v`. */
  lemma WrapResultExactly(v: Value, d: Dict)
    ensures d == WrapResult(v) <==> d.Keys == {ResultKey} && d[ResultKey] == v
  {
    if d.Keys == {ResultKey} && d[ResultKey] == v {
      assert forall k :: k in d <==> k in WrapResult(v);
    }
  }
}
