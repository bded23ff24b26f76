/**
 * The two Python built-ins the scheduler's decisions rest on:
 * min(xs, key=...) and sorted(xs, key=..., reverse=True). Both work on a
 * sequence of integer keys and answer with positions.
 */
module Builtins {
  import opened Common

  /**
   * Position `i` is what min() returns among the eligible positions: its key is
   * minimal, and every eligible position before it has a strictly larger key
   * (min() keeps the first of several equal minima).
   */
  ghost predicate IsFirstMin(keys: seq<int>, eligible: seq<bool>, i: int)
    requires |keys| == |eligible|
  {
    && 0 <= i < |keys| && eligible[i]
    && (forall j :: 0 <= j < |keys| && eligible[j] ==> keys[i] <= keys[j])
    && (forall j :: 0 <= j < i && eligible[j] ==> keys[i] < keys[j])
  }

  /**
   * min(p for p in positions if eligible[p], key=keys): scans left to right and
   * replaces the current best only on a strictly smaller key. None where the
   * candidate list is empty.
   */
  function FirstMin(keys: seq<int>, eligible: seq<bool>): (r: Option<nat>)
    requires |keys| == |eligible|
    ensures r.None? <==> forall j :: 0 <= j < |keys| ==> !eligible[j]
    ensures r.Some? ==> IsFirstMin(keys, eligible, r.value)
  {
    if |keys| == 0 then None
    else
      var n := |keys| - 1;
      var best := FirstMin(keys[..n], eligible[..n]);
      if eligible[n] && (best.None? || keys[n] < keys[best.value]) then Some(n)
      else best
  }

  /** Position i comes before position j in sorted(..., reverse=True): larger key first, ties in original order. */
  predicate Precedes(keys: seq<int>, i: nat, j: nat)
    requires i < |keys| && j < |keys|
  {
    keys[i] > keys[j] || (keys[i] == keys[j] && i < j)
  }

  predicate SortedBy(keys: seq<int>, s: seq<nat>) {
    && (forall p :: 0 <= p < |s| ==> s[p] < |keys|)
    && (forall p, q :: 0 <= p < q < |s| ==> Precedes(keys, s[p], s[q]))
  }

  /** Inserts position x into the ordered list s, before the first position it precedes. */
  function InsertByKey(keys: seq<int>, x: nat, s: seq<nat>): (r: seq<nat>)
    requires x < |keys| && x !in s && SortedBy(keys, s)
    ensures multiset(r) == multiset(s) + multiset{x}
    ensures SortedBy(keys, r)
  {
    if s == [] then [x]
    else if Precedes(keys, x, s[0]) then
      PrecedesAll(keys, x, s);
      PrependSorted(keys, x, s);
      [x] + s
    else
      assert s == [s[0]] + s[1..];
      var rest := InsertByKey(keys, x, s[1..]);
      FirstPrecedesInserted(keys, x, s, rest);
      PrependSorted(keys, s[0], rest);
      [s[0]] + rest
  }

  lemma {:induction false} PrependSorted(keys: seq<int>, x: nat, s: seq<nat>)
    requires x < |keys| && SortedBy(keys, s)
    requires forall q :: 0 <= q < |s| ==> Precedes(keys, x, s[q])
    ensures SortedBy(keys, [x] + s)
  {
    var r := [x] + s;
    forall p, q | 0 <= p < q < |r| ensures Precedes(keys, r[p], r[q]) {
      if p > 0 { assert r[p] == s[p - 1] && r[q] == s[q - 1]; }
    }
  }

  lemma {:induction false} PrecedesAll(keys: seq<int>, x: nat, s: seq<nat>)
    requires x < |keys| && SortedBy(keys, s) && s != [] && Precedes(keys, x, s[0])
    ensures forall q :: 0 <= q < |s| ==> Precedes(keys, x, s[q])
  {
    forall q | 0 <= q < |s| ensures Precedes(keys, x, s[q]) {
      if q > 0 { assert Precedes(keys, s[0], s[q]); }
    }
  }

  lemma {:induction false} FirstPrecedesInserted(keys: seq<int>, x: nat, s: seq<nat>, rest: seq<nat>)
    requires x < |keys| && SortedBy(keys, s) && s != [] && x != s[0] && !Precedes(keys, x, s[0])
    requires multiset(rest) == multiset(s[1..]) + multiset{x}
    ensures forall q :: 0 <= q < |rest| ==> rest[q] < |keys| && Precedes(keys, s[0], rest[q])
  {
    assert s == [s[0]] + s[1..];
    forall q | 0 <= q < |rest| ensures rest[q] < |keys| && Precedes(keys, s[0], rest[q]) {
      assert rest[q] in multiset(rest);
      if rest[q] != x {
        assert rest[q] in multiset(s[1..]);
        var k :| 0 <= k < |s[1..]| && s[1..][k] == rest[q];
        assert s[k + 1] == rest[q];
      }
    }
  }

  lemma {:induction false} InsertedMembers(s: seq<nat>, r: seq<nat>, x: nat)
    requires multiset(r) == multiset(s) + multiset{x}
    ensures |r| == |s| + 1
    ensures forall i :: i in r <==> i in s || i == x
  {
    assert |r| == |multiset(r)| == |multiset(s)| + 1;
    forall i ensures i in r <==> i in s || i == x {
      assert i in r <==> i in multiset(r);
      assert i in s <==> i in multiset(s);
    }
  }

  /** The first n positions in sorted(..., reverse=True) order. */
  function SortPrefix(keys: seq<int>, n: nat): (r: seq<nat>)
    requires n <= |keys|
    ensures |r| == n && SortedBy(keys, r)
    ensures forall i :: i in r <==> 0 <= i < n
  {
    if n == 0 then []
    else
      var s := SortPrefix(keys, n - 1);
      var r := InsertByKey(keys, n - 1, s);
      InsertedMembers(s, r, n - 1);
      r
  }

  /**
   * sorted(range(len(keys)), key=lambda i: keys[i], reverse=True): every position
   * exactly once, larger keys first and, as Python's sort is stable, equal keys
   * in their original order.
   */
  function DescendingOrder(keys: seq<int>): (r: seq<nat>)
    ensures |r| == |keys| && SortedBy(keys, r)
    ensures forall i :: 0 <= i < |keys| ==> i in r
    ensures forall p, q :: 0 <= p < q < |r| ==> r[p] != r[q]
  {
    SortPrefix(keys, |keys|)
  }

  /**
   * list.remove(x) where it succeeds: drops the first element equal to x.
   * Python raises ValueError when there is none; the one call that can meet
   * that case (run_iteration) catches it and goes on with the list as it
   * was, which is what the result here stands for.
   */
  function RemoveFirst<T(==)>(xs: seq<T>, x: T): (r: seq<T>)
    ensures x in xs ==> |r| == |xs| - 1 && multiset(r) + multiset{x} == multiset(xs)
    ensures x !in xs ==> r == xs
  {
    if xs == [] then []
    else if xs[0] == x then
      assert xs == [xs[0]] + xs[1..];
      xs[1..]
    else
      assert xs == [xs[0]] + xs[1..];
      [xs[0]] + RemoveFirst(xs[1..], x)
  }

  /** On a list without repeats before position i, list.remove(xs[i]) drops exactly position i. */
  lemma {:induction false} RemoveFirstAt<T>(xs: seq<T>, i: nat)
    requires i < |xs| && forall j :: 0 <= j < i ==> xs[j] != xs[i]
    ensures RemoveFirst(xs, xs[i]) == xs[..i] + xs[i + 1..]
  {
    if i > 0 {
      var t := xs[1..];
      assert t[i - 1] == xs[i];
      assert forall j :: 0 <= j < i - 1 ==> t[j] != t[i - 1] by {
        forall j | 0 <= j < i - 1 ensures t[j] != t[i - 1] {
          assert t[j] == xs[j + 1];
        }
      }
      RemoveFirstAt(t, i - 1);
      assert RemoveFirst(xs, xs[i]) == [xs[0]] + RemoveFirst(t, xs[i]) by {
        assert xs[0] != xs[i];
      }
      assert [xs[0]] + (t[..i - 1] + t[i..]) == xs[..i] + xs[i + 1..];
    }
  }
}
