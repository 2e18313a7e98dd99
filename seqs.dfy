/**
 * Insertion-ordered collections of distinct keys, shared by the lifecycle
 * registry's observer set and the back-press dispatcher's callback stack.
 * The oldest entry sits at index 0; the most recent one at the end.
 */
module Seqs {

  /** No key occurs twice. */
  predicate Distinct<T(==)>(s: seq<T>)
  {
    forall i, j :: 0 <= i < j < |s| ==> s[i] != s[j]
  }

  /**
   * Put-if-absent: a key already present leaves the collection as it is; a new
   * key is appended at the most recent position.
   */
  function PutIfAbsent<T(==)>(s: seq<T>, x: T): (r: seq<T>)
    ensures x in r
    ensures |s| <= |r| && r[..|s|] == s
    ensures |r| == if x in s then |s| else |s| + 1
    ensures x !in s ==> r[|s|] == x
    ensures Distinct(s) ==> Distinct(r)
  {
    if x in s then s else s + [x]
  }

  /** Deletes key `x`; the other keys keep their relative order. */
  function Remove<T(==)>(s: seq<T>, x: T): (r: seq<T>)
    ensures multiset(r) == multiset(s)[x := 0]
    ensures x !in r
    ensures x !in s ==> r == s
  {
    if s == [] then []
    else
      var rest := Remove(s[1..], x);
      assert s == [s[0]] + s[1..];
      assert multiset(s) == multiset{s[0]} + multiset(s[1..]);
      if s[0] == x then rest
      else
        assert multiset([s[0]] + rest) == multiset{s[0]} + multiset(rest);
        [s[0]] + rest
  }

  /**
   * Removal keeps the keys distinct, and removing a present key shrinks the
   * collection by exactly one.
   */
  lemma {:induction false} RemoveKeepsDistinct<T>(s: seq<T>, x: T)
    requires Distinct(s)
    ensures Distinct(Remove(s, x))
    ensures x in s ==> |Remove(s, x)| == |s| - 1
  {
    if s != [] {
      var rest := Remove(s[1..], x);
      assert s == [s[0]] + s[1..];
      assert Distinct(s[1..]);
      assert s[0] !in s[1..];
      RemoveKeepsDistinct(s[1..], x);
      if s[0] != x {
        assert multiset(rest)[s[0]] == 0;
        DistinctCons(s[0], rest);
      }
    }
  }

  lemma DistinctCons<T>(x: T, s: seq<T>)
    requires Distinct(s) && x !in s
    ensures Distinct([x] + s)
  {
    var t := [x] + s;
    forall i, j | 0 <= i < j < |t| ensures t[i] != t[j] {
      if i == 0 {
        assert t[j] == s[j - 1];
      } else {
        assert t[i] == s[i - 1] && t[j] == s[j - 1];
      }
    }
  }

  /**
   * In a collection of distinct keys, removing the key at index `k` is exactly
   * splicing that one position out: nothing else is lost or reordered.
   */
  lemma {:induction false} RemoveAt<T>(s: seq<T>, k: nat)
    requires Distinct(s) && k < |s|
    ensures Remove(s, s[k]) == s[..k] + s[k + 1..]
  {
    var x := s[k];
    if k == 0 {
      assert x !in s[1..] by {
        assert forall j :: 1 <= j < |s| ==> s[j] != s[0];
      }
      assert s[..k] + s[k + 1..] == s[1..];
    } else {
      var t := s[1..];
      assert s[0] != x;
      assert Distinct(t);
      assert t[k - 1] == x;
      RemoveAt(t, k - 1);
      calc {
        Remove(s, x);
        [s[0]] + Remove(t, x);
        [s[0]] + (t[..k - 1] + t[k..]);
        { assert [s[0]] + t[..k - 1] == s[..k]; assert t[k..] == s[k + 1..]; }
        s[..k] + s[k + 1..];
      }
    }
  }
}
