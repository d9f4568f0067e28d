/** Sequence utilities shared by the card rules and the turn engine. */
module Seqs {

  /** `r` occurs in `s` in order, possibly with gaps. */
  predicate IsSubsequence<T(==)>(r: seq<T>, s: seq<T>)
    decreases |s|
  {
    |r| == 0 ||
    (|s| > 0 && ((r[0] == s[0] && IsSubsequence(r[1..], s[1..])) || IsSubsequence(r, s[1..])))
  }

  /** The order-preserving filter `s.filter(keep)`. */
  function Filter<T>(s: seq<T>, keep: T -> bool): (r: seq<T>)
    ensures |r| <= |s|
    ensures forall i :: 0 <= i < |r| ==> keep(r[i])
  {
    if |s| == 0 then []
    else
      assert s == [s[0]] + s[1..];
      if keep(s[0]) then [s[0]] + Filter(s[1..], keep) else Filter(s[1..], keep)
  }

  /** The filter keeps exactly the passing elements, never more copies than `s` has. */
  lemma {:induction false} FilterMembers<T>(s: seq<T>, keep: T -> bool)
    ensures var r := Filter(s, keep);
            && (forall i :: 0 <= i < |r| ==> r[i] in s)
            && (forall i :: 0 <= i < |s| && keep(s[i]) ==> s[i] in r)
            && multiset(r) <= multiset(s)
    decreases |s|
  {
    if |s| > 0 {
      FilterMembers(s[1..], keep);
      assert s == [s[0]] + s[1..];
    }
  }

  /** The filter keeps the survivors in their original order. */
  lemma {:induction false} FilterIsSubsequence<T>(s: seq<T>, keep: T -> bool)
    ensures IsSubsequence(Filter(s, keep), s)
    decreases |s|
  {
    if |s| > 0 {
      FilterIsSubsequence(s[1..], keep);
      var r := Filter(s, keep);
      if keep(s[0]) {
        assert r[0] == s[0] && r[1..] == Filter(s[1..], keep);
      }
    }
  }

  /** Filtering keeps a sequence whole when every element passes. */
  lemma {:induction false} FilterKeepsAll<T>(s: seq<T>, keep: T -> bool)
    requires forall i :: 0 <= i < |s| ==> keep(s[i])
    ensures Filter(s, keep) == s
  {
    if |s| > 0 {
      FilterKeepsAll(s[1..], keep);
      assert s == [s[0]] + s[1..];
    }
  }

  /** Filtering removes exactly position `k` when it is the only element that fails. */
  lemma {:induction false} FilterDropsOne<T>(s: seq<T>, keep: T -> bool, k: nat)
    requires k < |s| && !keep(s[k])
    requires forall i :: 0 <= i < |s| && i != k ==> keep(s[i])
    ensures Filter(s, keep) == s[..k] + s[k + 1..]
  {
    if k == 0 {
      FilterKeepsAll(s[1..], keep);
    } else {
      FilterDropsOne(s[1..], keep, k - 1);
      assert s[..k] == [s[0]] + s[1..][..k - 1];
      assert s[k + 1..] == s[1..][k..];
    }
  }

  /** Filtering by a predicate and by its negation splits `s` into two parts that together hold every element. */
  lemma {:induction false} FilterPartition<T>(s: seq<T>, keep: T -> bool, drop: T -> bool)
    requires forall x :: drop(x) == !keep(x)
    ensures multiset(Filter(s, keep)) + multiset(Filter(s, drop)) == multiset(s)
  {
    if |s| > 0 {
      FilterPartition(s[1..], keep, drop);
      assert s == [s[0]] + s[1..];
    }
  }

  /** `s` without the element at position `i` (the source's `[...s.slice(0, i), ...s.slice(i + 1)]`). */
  function Remove<T>(s: seq<T>, i: nat): (r: seq<T>)
    requires i < |s|
    ensures |r| == |s| - 1
    ensures multiset(r) + multiset{s[i]} == multiset(s)
    ensures forall k :: 0 <= k < |s| && s[k] != s[i] ==> s[k] in r
  {
    assert s == s[..i] + [s[i]] + s[i + 1..];
    s[..i] + s[i + 1..]
  }

  /** A sequence whose elements all occur in `b`, with multiplicity, is no longer than `b`. */
  lemma {:induction false} SubMultisetLength<T>(a: seq<T>, b: seq<T>)
    requires multiset(a) <= multiset(b)
    ensures |a| <= |b|
    decreases |a|
  {
    if |a| > 0 {
      assert a[0] in multiset(b) by {
        assert a[0] in multiset(a);
      }
      var j :| 0 <= j < |b| && b[j] == a[0];
      assert a == [a[0]] + a[1..];
      assert multiset(a[1..]) == multiset(a) - multiset{a[0]};
      SubMultisetLength(a[1..], Remove(b, j));
    }
  }

  /** Moving the multiset `moved` out of a holder (whose remainder is `rest`) onto a pile keeps the total. */
  lemma MultisetMove<T>(pile: multiset<T>, other: multiset<T>, moved: multiset<T>, rest: multiset<T>,
                        oldHeld: multiset<T>, newHeld: multiset<T>)
    requires newHeld + (moved + rest) == oldHeld + rest
    ensures other + (pile + moved) + newHeld == other + pile + oldHeld
  {
    assert newHeld + moved + rest == oldHeld + rest by {
      assert newHeld + moved + rest == newHeld + (moved + rest);
    }
    forall x
      ensures (newHeld + moved)[x] == oldHeld[x]
    {
      assert (newHeld + moved + rest)[x] == (oldHeld + rest)[x];
    }
    assert newHeld + moved == oldHeld;
    assert other + (pile + moved) + newHeld == other + pile + (newHeld + moved);
  }
}
