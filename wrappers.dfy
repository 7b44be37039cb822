/** Outcomes of the Python operations: a value, or the exception the code raises. */
module Wrappers {

  datatype Option<+T> = None | Some(value: T)

  /** The Python exception classes the modelled code can raise. */
  datatype Error = TypeError | KeyError | ValueError | AttributeError

  datatype Result<+T> = Ok(value: T) | Err(error: Error)
}

/** Python dictionaries as Dafny maps: lookup that may miss, and extensionality. */
module Dicts {
  import opened Wrappers

  /** `d.get(k)`: the value stored under `k`, or None when `k` is absent. */
  function Get<K, V>(m: map<K, V>, k: K): (r: Option<V>)
    ensures r.Some? <==> k in m
    ensures r.Some? ==> r.value == m[k]
  {
    if k in m then Some(m[k]) else None
  }

  /** Two dictionaries that answer every lookup alike are the same dictionary. */
  lemma GetExtensional<K, V>(m1: map<K, V>, m2: map<K, V>)
    requires forall k :: Get(m1, k) == Get(m2, k)
    ensures m1 == m2
  {
    assert m1.Keys == m2.Keys by {
      forall k ensures k in m1 <==> k in m2 {
        assert Get(m1, k) == Get(m2, k);
      }
    }
    forall k | k in m1 ensures m1[k] == m2[k] {
      assert Get(m1, k) == Get(m2, k);
    }
  }
}
