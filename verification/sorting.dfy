/** A stable sort by an integer key, standing for Rust's `slice::sort_by_key`
    and `slice::sort_by` (both stable). Descending orders are obtained by
    negating the key. */
module Sorting {

  /** `s` is in ascending order of `key`. */
  predicate SortedBy<T>(s: seq<T>, key: T -> int)
  {
    forall i, j :: 0 <= i < j < |s| ==> key(s[i]) <= key(s[j])
  }

  /** Inserts `x` after every element whose key is not greater than its own,
      so that among equal keys the element inserted last stays last. */
  function Insert<T>(x: T, s: seq<T>, key: T -> int): (r: seq<T>)
    requires SortedBy(s, key)
    ensures |r| == |s| + 1
    ensures forall k :: 0 <= k < |r| ==> r[k] == x || r[k] in s
    ensures SortedBy(r, key)
    decreases |s|
  {
    if s == [] || key(s[|s| - 1]) <= key(x) then
      s + [x]
    else
      var last := s[|s| - 1];
      var front := s[..|s| - 1];
      assert s == front + [last];
      var r' := Insert(x, front, key);
      assert forall k :: 0 <= k < |r'| ==> key(r'[k]) <= key(last) by {
        forall k | 0 <= k < |r'|
          ensures key(r'[k]) <= key(last)
        {
          if r'[k] != x {
            var j :| 0 <= j < |front| && front[j] == r'[k];
            assert s[j] == r'[k];
          }
        }
      }
      r' + [last]
  }

  /** Inserting adds `x` and keeps everything else. */
  lemma {:induction false} InsertMultiset<T>(x: T, s: seq<T>, key: T -> int)
    requires SortedBy(s, key)
    ensures multiset(Insert(x, s, key)) == multiset(s) + multiset{x}
    decreases |s|
  {
    if !(s == [] || key(s[|s| - 1]) <= key(x)) {
      var last := s[|s| - 1];
      var front := s[..|s| - 1];
      assert s == front + [last];
      InsertMultiset(x, front, key);
    }
  }

  /** Stable ascending insertion sort by `key`: a permutation of `s` in
      ascending key order. */
  function SortAsc<T>(s: seq<T>, key: T -> int): (r: seq<T>)
    ensures SortedBy(r, key)
    ensures multiset(r) == multiset(s)
    ensures |r| == |s|
  {
    if s == [] then []
    else
      var front := s[..|s| - 1];
      assert s == front + [s[|s| - 1]];
      InsertMultiset(s[|s| - 1], SortAsc(front, key), key);
      Insert(s[|s| - 1], SortAsc(front, key), key)
  }

  /** The elements of `s` in reverse order (Rust's `slice::reverse`). */
  function Reverse<T>(s: seq<T>): (r: seq<T>)
    ensures |r| == |s|
    ensures forall i :: 0 <= i < |s| ==> r[i] == s[|s| - 1 - i]
  {
    if s == [] then []
    else
      assert s == [s[0]] + s[1..];
      Reverse(s[1..]) + [s[0]]
  }

  /** Reversing keeps every element, as often as it occurs. */
  lemma {:induction false} ReverseMultiset<T>(s: seq<T>)
    ensures multiset(Reverse(s)) == multiset(s)
  {
    if s != [] {
      assert s == [s[0]] + s[1..];
      ReverseMultiset(s[1..]);
      assert Reverse(s) == Reverse(s[1..]) + [s[0]];
    }
  }

  /** Sorting what is already sorted changes nothing. */
  lemma {:induction false} SortAscSorted<T>(s: seq<T>, key: T -> int)
    requires SortedBy(s, key)
    ensures SortAsc(s, key) == s
  {
    if s != [] {
      var front := s[..|s| - 1];
      var last := s[|s| - 1];
      SortedFront(s, key);
      SortAscSorted(front, key);
      SortAscSnoc(front, last, key);
    }
  }

  /** The front of a sorted sequence is sorted, with keys not above the last. */
  lemma SortedFront<T>(s: seq<T>, key: T -> int)
    requires SortedBy(s, key) && s != []
    ensures SortedBy(s[..|s| - 1], key)
    ensures forall i :: 0 <= i < |s| - 1 ==> key(s[i]) <= key(s[|s| - 1])
  {
  }

  /** Sorting one more element inserts it into the sorted front. */
  lemma SortAscSnoc<T>(front: seq<T>, last: T, key: T -> int)
    ensures SortAsc(front + [last], key) == Insert(last, SortAsc(front, key), key)
  {
    var s := front + [last];
    assert s[..|s| - 1] == front;
  }

  /** An element whose key is below every key of `s` is inserted in front. */
  lemma {:induction false} InsertBelowAll<T>(x: T, s: seq<T>, key: T -> int)
    requires SortedBy(s, key)
    requires forall i :: 0 <= i < |s| ==> key(x) < key(s[i])
    ensures Insert(x, s, key) == [x] + s
    decreases |s|
  {
    if s != [] {
      var front := s[..|s| - 1];
      var last := s[|s| - 1];
      SortedFront(s, key);
      InsertBelowAll(x, front, key);
      InsertBeforeLast(x, front, last, key);
      assert [x] + front + [last] == [x] + s;
    }
  }

  /** Inserting before a larger last element. */
  lemma InsertBeforeLast<T>(x: T, front: seq<T>, last: T, key: T -> int)
    requires SortedBy(front + [last], key) && key(x) < key(last)
    ensures SortedBy(front, key)
    ensures Insert(x, front + [last], key) == Insert(x, front, key) + [last]
  {
    var s := front + [last];
    assert s[..|s| - 1] == front;
    SortedFront(s, key);
  }

  lemma ReverseSnoc<T>(front: seq<T>, last: T)
    ensures Reverse(front + [last]) == [last] + Reverse(front)
  {
    var s := front + [last];
    var r := Reverse(s);
    var rf := Reverse(front);
    assert forall i :: 1 <= i < |r| ==> r[i] == s[|s| - 1 - i] == front[|front| - 1 - (i - 1)];
  }

  /** Reversing a sequence in descending key order sorts it. */
  lemma ReverseOfDescending<T>(s: seq<T>, key: T -> int)
    requires forall i, j :: 0 <= i < j < |s| ==> key(s[i]) >= key(s[j])
    ensures SortedBy(Reverse(s), key)
  {
    var r := Reverse(s);
    forall i, j | 0 <= i < j < |r|
      ensures key(r[i]) <= key(r[j])
    {
      assert r[i] == s[|s| - 1 - i];
      assert r[j] == s[|s| - 1 - j];
    }
  }

  /** Sorting a sequence given in strictly descending key order reverses it. */
  lemma {:induction false} SortAscOfDescending<T>(s: seq<T>, key: T -> int)
    requires forall i, j :: 0 <= i < j < |s| ==> key(s[i]) > key(s[j])
    ensures SortAsc(s, key) == Reverse(s)
  {
    if s != [] {
      var front := s[..|s| - 1];
      var last := s[|s| - 1];
      assert s == front + [last];
      SortAscOfDescending(front, key);
      ReverseOfDescending(front, key);
      var rf := Reverse(front);
      forall i | 0 <= i < |rf|
        ensures key(last) < key(rf[i])
      {
        var k := |front| - 1 - i;
        assert rf[i] == front[k];
        assert front[k] == s[k];
        assert key(s[k]) > key(s[|s| - 1]);
      }
      InsertBelowAll(last, rf, key);
      ReverseSnoc(front, last);
      assert SortAsc(s, key) == Insert(last, SortAsc(front, key), key);
    }
  }
}
