/** Counting answers by the window they belong to. Answers are named by numbers. */
module Counting {
  import opened Arithmetic

  /** The members of `s` that `window` puts into window `w`. */
  function Slice(s: set<nat>, window: map<nat, int>, w: int): set<nat>
    requires s <= window.Keys
  {
    set c | c in s && window[c] == w
  }

  /** Different numbers from 1 to n are at most n. */
  lemma {:induction false} DistinctNumbers(s: set<nat>, number: map<nat, int>, n: nat)
    requires s <= number.Keys && forall c :: c in s ==> 1 <= number[c] <= n
    requires forall c, d :: c in s && d in s && number[c] == number[d] ==> c == d
    ensures |s| <= n
    decreases n
  {
    if c :| c in s && number[c] == n {
      DistinctNumbers(s - {c}, number, n - 1);
    } else if n > 0 {
      DistinctNumbers(s, number, n - 1);
    } else {
      assert s == {};
    }
  }

  /** At most `per` in each window from `lo` to `hi`. */
  lemma {:induction false} WindowsBound(s: set<nat>, window: map<nat, int>, per: nat, lo: int, hi: int)
    requires s <= window.Keys && lo <= hi + 1
    requires forall c :: c in s ==> lo <= window[c] <= hi
    requires forall w :: |Slice(s, window, w)| <= per
    ensures |s| <= per * (hi - lo + 1)
    decreases hi - lo + 1
  {
    if lo <= hi {
      var last := Slice(s, window, hi);
      var rest := s - last;
      forall w ensures |Slice(rest, window, w)| <= per {
        assert Slice(rest, window, w) <= Slice(s, window, w);
        Smaller(Slice(rest, window, w), Slice(s, window, w));
      }
      WindowsBound(rest, window, per, lo, hi - 1);
      assert |s| == |rest| + |last|;
      assert per * (hi - lo + 1) == per * (hi - lo) + per;
    } else {
      assert s == {};
    }
  }

  lemma Smaller(a: set<nat>, b: set<nat>)
    requires a <= b
    ensures |a| <= |b|
  {
    assert b == a + (b - a);
  }

  lemma {:induction false} Earliest(s: set<nat>, window: map<nat, int>) returns (first: nat)
    requires s != {} && s <= window.Keys
    ensures first in s && forall c :: c in s ==> window[first] <= window[c]
    decreases |s|
  {
    var c :| c in s;
    if s == {c} {
      first := c;
    } else {
      var d := Earliest(s - {c}, window);
      first := if window[c] < window[d] then c else d;
    }
  }

  /** At most `per` in each window, and no two windows more than `spread` apart. */
  lemma SpreadBound(s: set<nat>, window: map<nat, int>, per: nat, spread: nat)
    requires s <= window.Keys
    requires forall w :: |Slice(s, window, w)| <= per
    requires forall c, d :: c in s && d in s ==> window[d] - window[c] <= spread
    ensures |s| <= per * (spread + 1)
  {
    if s == {} {
      MulMonotone(per, 0, spread + 1);
    } else {
      var first := Earliest(s, window);
      WindowsBound(s, window, per, window[first], window[first] + spread);
    }
  }
}
