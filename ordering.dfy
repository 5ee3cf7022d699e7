/**
 * The two Python built-ins the core leans on for ordering: `max(xs, key=…)`,
 * which keeps the first element whose key is largest, and the stable
 * `list.sort(key=…, reverse=True)`; plus the minimum of a non-empty list.
 */
module Ordering {

  /** The position `max` returns: the first one holding the largest key. */
  function FirstMaxIndex(keys: seq<real>): (i: nat)
    requires |keys| > 0
    ensures i < |keys|
    ensures forall j :: 0 <= j < |keys| ==> keys[j] <= keys[i]
    ensures forall j :: 0 <= j < i ==> keys[j] < keys[i]
  {
    if |keys| == 1 then 0
    else
      var j := FirstMaxIndex(keys[1..]);
      if keys[0] >= keys[1 + j] then 0 else 1 + j
  }

  /** The keys of `s`, as the reals `max` compares. */
  function Keys<T>(s: seq<T>, key: T -> int): (ks: seq<real>)
    ensures |ks| == |s|
    ensures forall i :: 0 <= i < |s| ==> ks[i] == key(s[i]) as real
  {
    seq(|s|, i requires 0 <= i < |s| => key(s[i]) as real)
  }

  ghost predicate SortedDesc<T>(s: seq<T>, key: T -> int) {
    forall i, j :: 0 <= i < j < |s| ==> key(s[i]) >= key(s[j])
  }

  /** Places `x`, which came before every element of `s`, ahead of all elements whose key is not larger. */
  function InsertDesc<T>(x: T, s: seq<T>, key: T -> int): (r: seq<T>)
    ensures |r| == |s| + 1
    ensures multiset(r) == multiset(s) + multiset{x}
    ensures forall k :: 0 <= k < |r| ==> r[k] == x || r[k] in s
    ensures r[0] == if s == [] || key(s[0]) <= key(x) then x else s[0]
  {
    if s == [] || key(s[0]) <= key(x) then [x] + s
    else
      assert s == [s[0]] + s[1..];
      [s[0]] + InsertDesc(x, s[1..], key)
  }

  lemma {:induction false} InsertDescSorted<T>(x: T, s: seq<T>, key: T -> int)
    requires SortedDesc(s, key)
    ensures SortedDesc(InsertDesc(x, s, key), key)
  {
    if s != [] && key(s[0]) > key(x) {
      var t := InsertDesc(x, s[1..], key);
      InsertDescSorted(x, s[1..], key);
      assert s == [s[0]] + s[1..];
      forall k | 0 <= k < |t| ensures key(t[k]) <= key(s[0]) {
        if t[k] != x {
          var l :| 0 <= l < |s[1..]| && s[1..][l] == t[k];
          assert s[1 + l] == t[k];
        }
      }
      assert InsertDesc(x, s, key) == [s[0]] + t;
    }
  }

  /**
   * `list.sort(key=key, reverse=True)`: a permutation of `s`, largest key
   * first. It is an insertion sort that keeps equal keys in input order, but
   * its contract states stability only for the head (`SortDescHead`).
   */
  function SortDesc<T>(s: seq<T>, key: T -> int): (r: seq<T>)
    ensures |r| == |s|
    ensures multiset(r) == multiset(s)
    ensures SortedDesc(r, key)
  {
    if s == [] then []
    else
      assert s == [s[0]] + s[1..];
      var t := SortDesc(s[1..], key);
      InsertDescSorted(s[0], t, key);
      InsertDesc(s[0], t, key)
  }

  /** Stability at the head: the descending sort starts with the element `max` would return. */
  lemma {:induction false} SortDescHead<T>(s: seq<T>, key: T -> int)
    requires |s| > 0
    ensures SortDesc(s, key)[0] == s[FirstMaxIndex(Keys(s, key))]
  {
    if |s| > 1 {
      SortDescHead(s[1..], key);
      var ks := Keys(s, key);
      assert ks[1..] == Keys(s[1..], key);
      var j := FirstMaxIndex(ks[1..]);
      var t := SortDesc(s[1..], key);
      assert t[0] == s[1 + j];
      assert SortDesc(s, key) == InsertDesc(s[0], t, key);
    }
  }

  /** `min(s)`: the least element of a non-empty list. */
  function Minimum(s: seq<int>): (r: int)
    requires |s| > 0
    ensures r in s
    ensures forall x :: x in s ==> r <= x
  {
    if |s| == 1 then s[0]
    else
      var m := Minimum(s[1..]);
      assert s == [s[0]] + s[1..];
      if s[0] <= m then s[0] else m
  }
}
