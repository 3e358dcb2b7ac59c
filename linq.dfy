/**
 * The LINQ operator the node-list pipeline relies on for deduplication:
 * `Enumerable.Distinct`, which yields every element whose equal has not been
 * yielded before, in the order of the input.
 */
module Linq {

  /** No element occurs twice in `s`. */
  predicate NoDuplicates<T(==)>(s: seq<T>) {
    forall i, j :: 0 <= i < j < |s| ==> s[i] != s[j]
  }

  /**
   * `s.Distinct().ToList()`: the first occurrence of every element, in order.
   * Written as the loop of the library seen from its end: the last element is
   * kept exactly when no equal element was kept before it.
   */
  function Distinct<T(==)>(s: seq<T>): (r: seq<T>)
    ensures NoDuplicates(r)
    ensures forall i :: 0 <= i < |r| ==> r[i] in s
    ensures forall i :: 0 <= i < |s| ==> s[i] in r
    ensures |r| <= |s|
    decreases |s|
  {
    if s == [] then []
    else
      var kept := Distinct(s[..|s| - 1]);
      var last := s[|s| - 1];
      if last in kept then kept else kept + [last]
  }

  /** Distinct leaves a sequence without duplicates as it is. */
  lemma {:induction false} DistinctOfDistinct<T>(s: seq<T>)
    requires NoDuplicates(s)
    ensures Distinct(s) == s
    decreases |s|
  {
    if s != [] {
      var init := s[..|s| - 1];
      assert NoDuplicates(init) by {
        forall i, j | 0 <= i < j < |init| ensures init[i] != init[j] {
          assert init[i] == s[i] && init[j] == s[j];
        }
      }
      DistinctOfDistinct(init);
      assert s[|s| - 1] !in init by {
        forall i | 0 <= i < |init| ensures init[i] != s[|s| - 1] {
          assert init[i] == s[i];
        }
      }
      assert init + [s[|s| - 1]] == s;
    }
  }

  /** Distinct is idempotent. */
  lemma DistinctIdempotent<T>(s: seq<T>)
    ensures Distinct(Distinct(s)) == Distinct(s)
  {
    DistinctOfDistinct(Distinct(s));
  }

  /**
   * Appending an element that is not yet present to a sequence without
   * duplicates: Distinct keeps everything, with the new element last.
   */
  lemma DistinctAppendFresh<T>(s: seq<T>, x: T)
    requires NoDuplicates(s) && x !in s
    ensures Distinct(s + [x]) == s + [x]
  {
    assert NoDuplicates(s + [x]) by {
      forall i, j | 0 <= i < j < |s + [x]| ensures (s + [x])[i] != (s + [x])[j] {
        if j == |s| {
          assert (s + [x])[i] == s[i];
        } else {
          assert (s + [x])[i] == s[i] && (s + [x])[j] == s[j];
        }
      }
    }
    DistinctOfDistinct(s + [x]);
  }

  /** In a sequence without duplicates every present element occurs exactly once. */
  lemma {:induction false} OccursOnce<T>(s: seq<T>, x: T)
    requires NoDuplicates(s) && x in s
    ensures multiset(s)[x] == 1
    decreases |s|
  {
    var tail := s[1..];
    assert s == [s[0]] + tail;
    assert NoDuplicates(tail) by {
      forall i, j | 0 <= i < j < |tail| ensures tail[i] != tail[j] {
        assert tail[i] == s[i + 1] && tail[j] == s[j + 1];
      }
    }
    if s[0] == x {
      assert x !in tail by {
        forall i | 0 <= i < |tail| ensures tail[i] != x {
          assert tail[i] == s[i + 1];
        }
      }
      assert multiset(tail)[x] == 0;
    } else {
      OccursOnce(tail, x);
    }
  }
}
