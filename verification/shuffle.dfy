/** `Collections.shuffle`: the Fisher-Yates shuffle the local search uses to
    pick the order in which it visits routes and clients. The random source
    is a parameter: draw number t, taken with bound b, yields random(t) % b. */
module Shuffling {
  import opened Common

  /** No value occurs twice. */
  ghost predicate Distinct<T>(s: seq<T>)
  {
    forall i, j :: 0 <= i < j < |s| ==> s[i] != s[j]
  }

  /** A sequence has no repeats exactly when its multiset counts every value
      at most once. */
  lemma {:induction false} DistinctCounts<T>(s: seq<T>)
    ensures Distinct(s) <==> forall v :: multiset(s)[v] <= 1
  {
    if |s| > 0 {
      var init, last := s[..|s| - 1], s[|s| - 1];
      assert s == init + [last];
      DistinctCounts(init);
      assert forall v :: multiset(s)[v] == multiset(init)[v] + (if v == last then 1 else 0);
      if Distinct(s) {
        assert Distinct(init) by {
          forall i, j | 0 <= i < j < |init| ensures init[i] != init[j] {
            assert init[i] == s[i] && init[j] == s[j];
          }
        }
        assert last !in init by {
          forall i | 0 <= i < |init| ensures init[i] != last {
            assert init[i] == s[i];
          }
        }
        assert multiset(init)[last] == 0;
      }
      if forall v :: multiset(s)[v] <= 1 {
        assert forall v :: multiset(init)[v] <= 1 by {
          forall v ensures multiset(init)[v] <= 1 {
            assert multiset(s)[v] <= 1;
          }
        }
        assert multiset(init)[last] == 0 by {
          assert multiset(s)[last] <= 1;
        }
        forall i, j | 0 <= i < j < |s| ensures s[i] != s[j] {
          if j < |s| - 1 {
            assert s[i] == init[i] && s[j] == init[j];
          } else {
            assert s[i] == init[i] && init[i] in multiset(init);
          }
        }
      }
    }
  }

  /** Reordering keeps a sequence free of repeats. */
  lemma PermutationKeepsDistinct<T>(s: seq<T>, r: seq<T>)
    requires multiset(r) == multiset(s) && Distinct(s)
    ensures Distinct(r)
  {
    DistinctCounts(s);
    DistinctCounts(r);
  }

  /** Dropping values keeps a sequence free of repeats. */
  lemma SubmultisetKeepsDistinct<T>(s: seq<T>, r: seq<T>)
    requires multiset(r) <= multiset(s) && Distinct(s)
    ensures Distinct(r)
  {
    DistinctCounts(s);
    DistinctCounts(r);
    forall v ensures multiset(r)[v] <= 1 {
      assert multiset(r)[v] <= multiset(s)[v];
    }
  }

  /** The shuffle: for i = |s| down to 2, swap position i - 1 with a
      position drawn below i. It consumes one draw per swap, starting at
      draw t0. */
  method Shuffle<T>(s: seq<T>, random: nat -> nat, t0: nat) returns (r: seq<T>, t: nat)
    ensures |r| == |s| && multiset(r) == multiset(s)
    ensures t == t0 + (if |s| > 1 then |s| - 1 else 0)
  {
    r, t := s, t0;
    var i := |s|;
    while i > 1
      invariant 0 <= i <= |s| && |r| == |s| && multiset(r) == multiset(s)
      invariant t == t0 + (|s| - i) && (if |s| > 1 then i >= 1 else i == |s|)
    {
      var j := random(t) % i;
      r := Swap(r, i - 1, j);
      t := t + 1;
      i := i - 1;
    }
  }
}
