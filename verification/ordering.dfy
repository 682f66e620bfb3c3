/** Ascending enumeration of a finite set of ids, standing for the
    `NSSortDescriptor(key: "id", ascending: true)` of the cache's fetch. */
module Ordering {

  /** Each element is smaller than the next, so the sequence is sorted and duplicate-free. */
  predicate StrictlyIncreasing(s: seq<int>) {
    forall i, j | 0 <= i < j < |s| :: s[i] < s[j]
  }

  /** `m` is the least element of `s`. */
  predicate IsLeast(m: int, s: set<int>) {
    m in s && forall j | j in s :: m <= j
  }

  /** Every non-empty finite set of integers has a least element. */
  lemma {:induction false} LeastExists(s: set<int>)
    requires s != {}
    ensures exists m :: IsLeast(m, s)
    decreases |s|
  {
    assert (forall y :: y !in s) ==> s == {};
    var x :| x in s;
    if s == {x} {
      assert IsLeast(x, s);
    } else {
      var rest := s - {x};
      LeastExists(rest);
      var m :| IsLeast(m, rest);
      forall j | j in s ensures j == x || j in rest { }
      if x <= m {
        assert IsLeast(x, s);
      } else {
        assert IsLeast(m, s);
      }
    }
  }

  /** The elements of `s` in ascending order. */
  function SortedKeys(s: set<int>): seq<int>
    decreases |s|
  {
    if s == {} then []
    else
      LeastExists(s);
      var m :| IsLeast(m, s);
      [m] + SortedKeys(s - {m})
  }

  /** `SortedKeys` lists every element of the set exactly once, in strictly
      ascending order. */
  lemma {:induction false} SortedKeysOrdered(s: set<int>)
    ensures StrictlyIncreasing(SortedKeys(s))
    ensures forall k :: k in SortedKeys(s) <==> k in s
    ensures |SortedKeys(s)| == |s|
    decreases |s|
  {
    if s != {} {
      var r := SortedKeys(s);
      var m := r[0];
      var rest := s - {m};
      assert IsLeast(m, s);
      var tail := SortedKeys(rest);
      assert r == [m] + tail;
      SortedKeysOrdered(rest);
      forall i, j | 0 <= i < j < |r| ensures r[i] < r[j] {
        assert r[j] == tail[j - 1] && r[j] in rest;
        if i > 0 {
          assert r[i] == tail[i - 1];
        }
      }
    }
  }

  /** A strictly increasing sequence has as many elements as the set of its elements. */
  lemma {:induction false} IncreasingLength(s: seq<int>)
    requires StrictlyIncreasing(s)
    ensures |s| == |set x | x in s|
  {
    if s != [] {
      var tail := s[1..];
      IncreasingLength(tail);
      var whole := set x | x in s;
      var rest := set x | x in tail;
      assert s[0] !in rest;
      assert whole == rest + {s[0]};
    }
  }
}
