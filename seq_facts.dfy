/** Facts about lists of distinct integers, the shape every number list of the game keeps. */
module SeqFacts {

  /** No value occurs twice in `s`. Stated through the multiset of `s`, so it is
      invariant under any permutation of `s`. */
  predicate NoDup(s: seq<int>)
  {
    forall x | x in s :: multiset(s)[x] == 1
  }

  /** The set of values that occur in `s`. */
  function Elements(s: seq<int>): set<int>
  {
    set x | x in s
  }

  /** Two arrangements of the same values have the same set of values, and one is
      duplicate-free exactly when the other is. */
  lemma Permutation(a: seq<int>, b: seq<int>)
    requires multiset(a) == multiset(b)
    ensures Elements(a) == Elements(b)
    ensures NoDup(a) <==> NoDup(b)
  {
    forall x ensures x in a <==> x in b {
      assert x in a <==> x in multiset(a);
      assert x in b <==> x in multiset(b);
    }
  }

  /** A concatenation is duplicate-free exactly when both parts are and they share no value. */
  lemma NoDupConcat(a: seq<int>, b: seq<int>)
    ensures NoDup(a + b) <==> NoDup(a) && NoDup(b) && Elements(a) !! Elements(b)
  {
    var m := multiset(a + b);
    assert m == multiset(a) + multiset(b);
    if NoDup(a + b) {
      forall x | x in a ensures multiset(a)[x] == 1 && x !in Elements(b) {
        assert x in a + b;
      }
      forall x | x in b ensures multiset(b)[x] == 1 {
        assert x in a + b;
      }
    }
    if NoDup(a) && NoDup(b) && Elements(a) !! Elements(b) {
      forall x | x in a + b ensures m[x] == 1 {
        if x in a {
          assert x !in Elements(b);
        } else {
          assert x !in Elements(a);
        }
      }
    }
  }

  /** Splitting a duplicate-free list at `k` gives two duplicate-free, disjoint parts
      whose values together are those of the list. */
  lemma NoDupSplit(s: seq<int>, k: nat)
    requires NoDup(s) && k <= |s|
    ensures NoDup(s[..k]) && NoDup(s[k..])
    ensures Elements(s[..k]) !! Elements(s[k..])
    ensures Elements(s) == Elements(s[..k]) + Elements(s[k..])
  {
    assert s == s[..k] + s[k..];
    NoDupConcat(s[..k], s[k..]);
  }

  /** A duplicate-free list has exactly as many entries as it has distinct values. */
  lemma {:induction false} NoDupCardinality(s: seq<int>)
    requires NoDup(s)
    ensures |Elements(s)| == |s|
  {
    if |s| > 0 {
      var init, last := s[..|s| - 1], s[|s| - 1];
      assert s == init + [last];
      NoDupConcat(init, [last]);
      assert Elements(s) == Elements(init) + {last};
      NoDupCardinality(init);
    }
  }
}
