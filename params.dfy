/** src/lib/params.ts: `getParams` copies the query pairs of the page URL
    into a plain object, one after the other, so that a later pair overwrites
    an earlier one with the same key. Writing the key `__proto__` on a plain
    object calls the prototype setter, which ignores a string value, so that
    key is never stored. The pairs are taken as already parsed. */
module Params {
  import opened Base

  type Query = seq<(string, string)>

  /** The one key a plain object does not store as its own property. */
  const ProtoKey: string := "__proto__"

  /** `result[key] = value` on a plain object. */
  function Store(result: map<string, string>, key: string, value: string): map<string, string>
  {
    if key == ProtoKey then result else result[key := value]
  }

  /** The dictionary after writing every pair in order (the specification of
      the loop in `getParams`). */
  function Collect(pairs: Query): map<string, string>
  {
    if pairs == [] then map[]
    else
      var last := pairs[|pairs| - 1];
      Store(Collect(pairs[..|pairs| - 1]), last.0, last.1)
  }

  /** The keys occurring in the query. */
  function QueryKeys(pairs: Query): set<string>
  {
    set i | 0 <= i < |pairs| :: pairs[i].0
  }

  /** Independent reference: the value of the last pair with key `k`,
      found by scanning backwards. */
  function LastValue(pairs: Query, k: string): Option<string>
  {
    if pairs == [] then None
    else if pairs[|pairs| - 1].0 == k then Some(pairs[|pairs| - 1].1)
    else LastValue(pairs[..|pairs| - 1], k)
  }

  /** Pair `i` is the last occurrence of its key. */
  predicate IsLastOccurrence(pairs: Query, i: int)
    requires 0 <= i < |pairs|
  {
    forall j :: i < j < |pairs| ==> pairs[j].0 != pairs[i].0
  }

  /** Folding the pairs agrees with looking up the last occurrence, key by
      key, except that `__proto__` is never stored. */
  lemma {:induction false} CollectIsLastValue(pairs: Query, k: string)
    ensures k in Collect(pairs) <==> k != ProtoKey && LastValue(pairs, k).Some?
    ensures k in Collect(pairs) ==> Collect(pairs)[k] == LastValue(pairs, k).value
  {
    if pairs != [] {
      CollectIsLastValue(pairs[..|pairs| - 1], k);
    }
  }

  /** The last value of a key is that of its last occurrence in the query,
      and a key has a last value exactly when it occurs. */
  lemma {:induction false} LastValueIsLastOccurrence(pairs: Query, k: string)
    ensures LastValue(pairs, k).Some? <==> k in QueryKeys(pairs)
    ensures forall i :: 0 <= i < |pairs| && pairs[i].0 == k && IsLastOccurrence(pairs, i) ==>
              LastValue(pairs, k) == Some(pairs[i].1)
  {
    if pairs != [] {
      var init := pairs[..|pairs| - 1];
      LastValueIsLastOccurrence(init, k);
      if k in QueryKeys(pairs) && pairs[|pairs| - 1].0 != k {
        var i :| 0 <= i < |pairs| && pairs[i].0 == k;
        assert init[i].0 == k;
      }
      forall i | 0 <= i < |pairs| && pairs[i].0 == k && IsLastOccurrence(pairs, i)
        ensures LastValue(pairs, k) == Some(pairs[i].1)
      {
        if i < |init| {
          assert IsLastOccurrence(init, i);
        }
      }
      forall k' | k' in QueryKeys(init) ensures k' in QueryKeys(pairs) {
        var i :| 0 <= i < |init| && init[i].0 == k';
        assert pairs[i].0 == k';
      }
    }
  }

  /** `getParams()`: every key of the query but `__proto__` is a key of the
      result and no other is; a repeated key holds the value of its last
      occurrence; an empty query gives an empty dictionary. */
  method GetParams(pairs: Query) returns (result: map<string, string>)
    ensures result == Collect(pairs)
    ensures result.Keys == QueryKeys(pairs) - {ProtoKey}
    ensures forall i :: 0 <= i < |pairs| && pairs[i].0 != ProtoKey && IsLastOccurrence(pairs, i) ==>
              pairs[i].0 in result && result[pairs[i].0] == pairs[i].1
    ensures pairs == [] ==> result == map[]
  {
    result := map[];
    for n := 0 to |pairs|
      invariant result == Collect(pairs[..n])
    {
      assert pairs[..n + 1][..n] == pairs[..n];
      var (key, value) := pairs[n];
      result := Store(result, key, value);
    }
    assert pairs[..|pairs|] == pairs;
    forall k ensures k in result <==> k in QueryKeys(pairs) - {ProtoKey} {
      CollectIsLastValue(pairs, k);
      LastValueIsLastOccurrence(pairs, k);
    }
    forall i | 0 <= i < |pairs| && pairs[i].0 != ProtoKey && IsLastOccurrence(pairs, i)
      ensures pairs[i].0 in result && result[pairs[i].0] == pairs[i].1
    {
      CollectIsLastValue(pairs, pairs[i].0);
      LastValueIsLastOccurrence(pairs, pairs[i].0);
    }
  }
}
