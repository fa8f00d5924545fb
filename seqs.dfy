/** Linear search by key, shared by every lookup of a document or record by one
    of its fields. */
module Seqs {

  /** Position of the first element whose key is `k`, or -1 when there is none. */
  function IndexOfKey<T, K(==)>(s: seq<T>, key: T -> K, k: K): (i: int)
    ensures -1 <= i < |s|
    ensures i >= 0 ==> key(s[i]) == k && forall j :: 0 <= j < i ==> key(s[j]) != k
    ensures i == -1 <==> forall j :: 0 <= j < |s| ==> key(s[j]) != k
  {
    if s == [] then -1
    else if key(s[0]) == k then 0
    else
      var i := IndexOfKey(s[1..], key, k);
      if i == -1 then -1 else i + 1
  }

  /** The search depends only on the keys, position by position. */
  lemma {:induction false} SameKeysSameIndex<T, K>(a: seq<T>, b: seq<T>, key: T -> K, k: K)
    requires |a| == |b| && forall i :: 0 <= i < |a| ==> key(a[i]) == key(b[i])
    ensures IndexOfKey(a, key, k) == IndexOfKey(b, key, k)
  {
    if a != [] {
      SameKeysSameIndex(a[1..], b[1..], key, k);
    }
  }
}
