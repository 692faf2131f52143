/** Shared vocabulary: optional values, repository paths, file contents, and the digest every component compares. */
module Basics {
  datatype Option<+T> = None | Some(value: T)

  type Path = string
  type Bytes = seq<int>
  type Tree = map<Path, Bytes>

  /** A content digest, idealised: it is named by the very bytes it was computed from, so it is injective. */
  datatype Digest = Sha(data: Bytes)

  function Get<K, V>(m: map<K, V>, k: K): Option<V> {
    if k in m then Some(m[k]) else None
  }

  function Put<K, V>(m: map<K, V>, k: K, v: Option<V>): map<K, V> {
    match v
    case Some(x) => m[k := x]
    case None => m - {k}
  }

  function DigestOf(content: Option<Bytes>): Option<Digest> {
    match content
    case Some(data) => Some(Sha(data))
    case None => None
  }

  predicate Distinct<T(==)>(s: seq<T>) {
    forall i, j :: 0 <= i < j < |s| ==> s[i] != s[j]
  }

  lemma LastOfDistinct<T>(s: seq<T>)
    requires Distinct(s) && |s| > 0
    ensures Distinct(s[..|s| - 1])
    ensures s[|s| - 1] !in s[..|s| - 1]
    ensures forall x :: x in s <==> x in s[..|s| - 1] || x == s[|s| - 1]
  {
    assert s == s[..|s| - 1] + [s[|s| - 1]];
  }
}
