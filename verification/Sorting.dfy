/** Stable sorting by a string key, and filtering, of sequences. */
module Sorting {
  import opened Text

  ghost predicate Sorted<T>(key: T -> string, s: seq<T>) {
    forall i, j | 0 <= i < j < |s| :: !Less(key(s[j]), key(s[i]))
  }

  ghost predicate StrictlySorted<T>(key: T -> string, s: seq<T>) {
    forall i, j | 0 <= i < j < |s| :: Less(key(s[i]), key(s[j]))
  }

  predicate DistinctKeys<T>(key: T -> string, s: seq<T>) {
    forall i, j | 0 <= i < j < |s| :: key(s[i]) != key(s[j])
  }

  function Insert<T>(key: T -> string, x: T, s: seq<T>): seq<T> {
    if s == [] || Less(key(x), key(s[0])) then [x] + s else [s[0]] + Insert(key, x, s[1..])
  }

  function Sort<T>(key: T -> string, s: seq<T>): seq<T> {
    if s == [] then [] else Insert(key, s[|s| - 1], Sort(key, s[..|s| - 1]))
  }

  function Filter<T>(keep: T -> bool, s: seq<T>): seq<T> {
    if s == [] then []
    else Filter(keep, s[..|s| - 1]) + if keep(s[|s| - 1]) then [s[|s| - 1]] else []
  }

  lemma {:induction false} InsertContents<T>(key: T -> string, x: T, s: seq<T>)
    ensures multiset(Insert(key, x, s)) == multiset(s) + multiset{x}
    ensures |Insert(key, x, s)| == |s| + 1
    ensures x in Insert(key, x, s) && forall i | 0 <= i < |s| :: s[i] in Insert(key, x, s)
    ensures var t := Insert(key, x, s); forall i | 0 <= i < |t| :: t[i] == x || t[i] in s
  {
    if s != [] && !Less(key(x), key(s[0])) {
      InsertContents(key, x, s[1..]);
      assert s == [s[0]] + s[1..];
    }
  }

  lemma LessThanAll<T>(key: T -> string, x: T, s: seq<T>, y: T)
    requires Sorted(key, s) && s != [] && Less(key(x), key(s[0])) && y in s
    ensures Less(key(x), key(y))
  {
    var i :| 0 <= i < |s| && s[i] == y;
    if i > 0 {
      LessTotal(key(s[0]), key(y));
      if Less(key(s[0]), key(y)) {
        LessTransitive(key(x), key(s[0]), key(y));
      }
    }
  }

  lemma {:induction false} InsertSorted<T>(key: T -> string, x: T, s: seq<T>)
    requires Sorted(key, s)
    ensures Sorted(key, Insert(key, x, s))
  {
    if s != [] {
      if Less(key(x), key(s[0])) {
        forall i | 0 <= i < |s| ensures !Less(key(s[i]), key(x)) {
          LessThanAll(key, x, s, s[i]);
          LessAsymmetric(key(x), key(s[i]));
        }
      } else {
        InsertSorted(key, x, s[1..]);
        InsertContents(key, x, s[1..]);
        var t := Insert(key, x, s[1..]);
        forall j | 0 <= j < |t| ensures !Less(key(t[j]), key(s[0])) {
          if t[j] != x {
            assert t[j] in s[1..];
            var i :| 0 <= i < |s| - 1 && s[1..][i] == t[j];
            assert s[i + 1] == t[j];
          }
        }
      }
    }
  }

  /** Sorting keeps every element, with its multiplicity, and puts them in key order. */
  lemma {:induction false} SortContents<T>(key: T -> string, s: seq<T>)
    ensures multiset(Sort(key, s)) == multiset(s) && |Sort(key, s)| == |s|
    ensures Sorted(key, Sort(key, s))
    ensures forall i | 0 <= i < |s| :: s[i] in Sort(key, s)
    ensures forall i | 0 <= i < |s| :: Sort(key, s)[i] in s
  {
    hide Insert;
    if s != [] {
      var front, last := s[..|s| - 1], s[|s| - 1];
      SortContents(key, front);
      InsertContents(key, last, Sort(key, front));
      InsertSorted(key, last, Sort(key, front));
      assert s == front + [last];
    }
  }

  lemma {:induction false} InsertLast<T>(key: T -> string, x: T, s: seq<T>)
    requires forall i | 0 <= i < |s| :: !Less(key(x), key(s[i]))
    ensures Insert(key, x, s) == s + [x]
  {
    if s != [] {
      InsertLast(key, x, s[1..]);
      assert s + [x] == [s[0]] + (s[1..] + [x]);
    }
  }

  /** A list in order stays as it is; so sorting twice is sorting once. */
  lemma {:induction false} SortOfSorted<T>(key: T -> string, s: seq<T>)
    requires Sorted(key, s)
    ensures Sort(key, s) == s
  {
    if s != [] {
      var front, last := s[..|s| - 1], s[|s| - 1];
      SortOfSorted(key, front);
      InsertLast(key, last, front);
      assert s == front + [last];
    }
  }

  lemma StrictlySortedFacts<T>(key: T -> string, s: seq<T>)
    requires StrictlySorted(key, s)
    ensures Sorted(key, s) && DistinctKeys(key, s)
  {
    forall i, j | 0 <= i < j < |s| ensures key(s[i]) != key(s[j]) && !Less(key(s[j]), key(s[i])) {
      LessAsymmetric(key(s[i]), key(s[j]));
    }
  }

  lemma SortedDistinct<T>(key: T -> string, s: seq<T>)
    requires Sorted(key, s) && DistinctKeys(key, s)
    ensures StrictlySorted(key, s)
  {
    forall i, j | 0 <= i < j < |s| ensures Less(key(s[i]), key(s[j])) {
      LessTotal(key(s[i]), key(s[j]));
    }
  }

  lemma {:induction false} AtMostOnce<T>(key: T -> string, s: seq<T>, x: T)
    requires DistinctKeys(key, s)
    ensures multiset(s)[x] <= 1
  {
    if s != [] {
      var front, last := s[..|s| - 1], s[|s| - 1];
      assert s == front + [last];
      AtMostOnce(key, front, x);
      if last == x {
        assert x !in front;
      }
    }
  }

  /** Whether keys are distinct does not depend on the order. */
  lemma DistinctPermuted<T>(key: T -> string, a: seq<T>, b: seq<T>)
    requires multiset(a) == multiset(b) && DistinctKeys(key, a)
    ensures DistinctKeys(key, b)
  {
    forall i, j | 0 <= i < j < |b| ensures key(b[i]) != key(b[j]) {
      if b[i] == b[j] {
        var x := b[i];
        assert b == b[..i] + [x] + b[i + 1..j] + [x] + b[j + 1..];
        assert multiset(b)[x] >= 2;
        AtMostOnce(key, a, x);
      } else {
        assert b[i] in multiset(a) && b[j] in multiset(a);
        var p :| 0 <= p < |a| && a[p] == b[i];
        var q :| 0 <= q < |a| && a[q] == b[j];
        assert p != q;
      }
    }
  }

  lemma SortDistinct<T>(key: T -> string, s: seq<T>)
    ensures DistinctKeys(key, Sort(key, s)) <==> DistinctKeys(key, s)
    ensures DistinctKeys(key, s) ==> StrictlySorted(key, Sort(key, s))
  {
    hide Sort;
    SortContents(key, s);
    if DistinctKeys(key, s) {
      DistinctPermuted(key, s, Sort(key, s));
      SortedDistinct(key, Sort(key, s));
    }
    if DistinctKeys(key, Sort(key, s)) {
      DistinctPermuted(key, Sort(key, s), s);
    }
  }

  // ---------- Filtering ----------

  lemma {:induction false} FilterContents<T>(keep: T -> bool, s: seq<T>)
    ensures |Filter(keep, s)| <= |s|
    ensures forall i | 0 <= i < |s| && keep(s[i]) :: s[i] in Filter(keep, s)
    ensures var f := Filter(keep, s); forall i | 0 <= i < |f| :: f[i] in s && keep(f[i])
  {
    if s != [] {
      FilterContents(keep, s[..|s| - 1]);
      assert s == s[..|s| - 1] + [s[|s| - 1]];
    }
  }

  lemma FilterLast<T>(keep: T -> bool, front: seq<T>, last: T)
    ensures Filter(keep, front + [last]) == Filter(keep, front) + if keep(last) then [last] else []
  {
    assert (front + [last])[..|front|] == front;
  }

  lemma {:induction false} FilterAppend<T>(keep: T -> bool, a: seq<T>, b: seq<T>)
    ensures Filter(keep, a + b) == Filter(keep, a) + Filter(keep, b)
  {
    if b == [] {
      assert a + b == a;
    } else {
      var front, last := b[..|b| - 1], b[|b| - 1];
      assert a + b == (a + front) + [last];
      FilterAppend(keep, a, front);
      FilterLast(keep, a + front, last);
    }
  }

  lemma FilterFront<T>(keep: T -> bool, x: T, s: seq<T>)
    ensures Filter(keep, [x] + s) == (if keep(x) then [x] else []) + Filter(keep, s)
  {
    FilterAppend(keep, [x], s);
    FilterLast(keep, [], x);
    assert [] + [x] == [x];
  }

  lemma {:induction false} FilterInsert<T>(key: T -> string, keep: T -> bool, x: T, s: seq<T>)
    requires Sorted(key, s)
    ensures Filter(keep, Insert(key, x, s)) == if keep(x) then Insert(key, x, Filter(keep, s)) else Filter(keep, s)
  {
    hide Filter;
    if s == [] || Less(key(x), key(s[0])) {
      FilterFront(keep, x, s);
      FilterContents(keep, s);
      var f := Filter(keep, s);
      if f != [] {
        LessThanAll(key, x, s, f[0]);
      }
    } else {
      var rest := s[1..];
      assert s == [s[0]] + rest;
      FilterInsert(key, keep, x, rest);
      FilterFront(keep, s[0], rest);
      FilterFront(keep, s[0], Insert(key, x, rest));
      var f := Filter(keep, rest);
      if keep(s[0]) {
        assert ([s[0]] + f)[1..] == f;
      } else {
        assert [] + f == f && [] + Filter(keep, Insert(key, x, rest)) == Filter(keep, Insert(key, x, rest));
      }
    }
  }

  lemma SortLast<T>(key: T -> string, front: seq<T>, last: T)
    ensures Sort(key, front + [last]) == Insert(key, last, Sort(key, front))
  {
    assert (front + [last])[..|front|] == front;
  }

  /** Dropping elements before or after sorting makes no difference. */
  lemma {:induction false} FilterSort<T>(key: T -> string, keep: T -> bool, s: seq<T>)
    ensures Filter(keep, Sort(key, s)) == Sort(key, Filter(keep, s))
  {
    hide Insert;
    if s == [] {
      assert Filter(keep, s) == [];
    } else {
      hide Filter;
      var front, last := s[..|s| - 1], s[|s| - 1];
      FilterSort(key, keep, front);
      SortContents(key, front);
      FilterInsert(key, keep, last, Sort(key, front));
      var f := Filter(keep, front);
      assert s == front + [last];
      FilterLast(keep, front, last);
      SortLast(key, front, last);
      SortLast(key, f, last);
      assert f + [] == f;
    }
  }

  lemma {:induction false} FilterAll<T>(keep: T -> bool, s: seq<T>)
    requires forall x | x in s :: keep(x)
    ensures Filter(keep, s) == s
  {
    if s != [] {
      var front, last := s[..|s| - 1], s[|s| - 1];
      FilterAll(keep, front);
      assert s == front + [last];
    }
  }

  lemma {:induction false} FilterNone<T>(keep: T -> bool, s: seq<T>)
    requires forall x | x in s :: !keep(x)
    ensures Filter(keep, s) == []
  {
    if s != [] {
      var front, last := s[..|s| - 1], s[|s| - 1];
      FilterNone(keep, front);
      assert s == front + [last];
    }
  }

  /** Dropping elements keeps the order. */
  lemma {:induction false} FilterStrictlySorted<T>(key: T -> string, keep: T -> bool, s: seq<T>)
    requires StrictlySorted(key, s)
    ensures StrictlySorted(key, Filter(keep, s))
  {
    if s != [] {
      var front, last := s[..|s| - 1], s[|s| - 1];
      FilterStrictlySorted(key, keep, front);
      FilterContents(keep, front);
      var f := Filter(keep, front);
      forall i | 0 <= i < |f| ensures Less(key(f[i]), key(last)) {
        var k :| 0 <= k < |front| && front[k] == f[i];
      }
    }
  }
}
