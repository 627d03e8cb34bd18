/** What several modules share: bytes, optional values, concatenation, sizes of sets and maps, and lists of places. */
module Basics {

  type Byte = x: int | 0 <= x < 256

  datatype Option<+T> = None | Some(value: T)

  function Concat<T>(parts: seq<seq<T>>): seq<T> {
    if parts == [] then [] else Concat(parts[..|parts| - 1]) + parts[|parts| - 1]
  }

  lemma {:induction false} SubsetSize<T>(a: set<T>, b: set<T>)
    requires a <= b
    ensures |a| <= |b|
  {
    if a != {} {
      var x :| x in a;
      SubsetSize(a - {x}, b - {x});
    }
  }

  lemma SizeWithout<K, V>(m: map<K, V>, k: K)
    ensures |m - {k}| <= |m|
    ensures k !in m ==> m - {k} == m
  {
    assert (m - {k}).Keys == m.Keys - {k};
    SubsetSize((m - {k}).Keys, m.Keys);
  }

  lemma SizeWith<K, V>(m: map<K, V>, k: K, v: V)
    ensures |m[k := v]| == |m| + if k in m then 0 else 1
  {
    assert m[k := v].Keys == m.Keys + {k};
  }

  predicate Occurs(at: seq<nat>, n: nat) {
    exists k | 0 <= k < |at| :: at[k] == n
  }

  lemma OccursAppend(at: seq<nat>, last: nat, n: nat)
    ensures Occurs(at + [last], n) <==> Occurs(at, n) || n == last
  {
    var all := at + [last];
    assert all[|at|] == last;
    if Occurs(at, n) {
      var k :| 0 <= k < |at| && at[k] == n;
      assert all[k] == n;
    }
  }
}
