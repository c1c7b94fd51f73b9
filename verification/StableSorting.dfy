/** Sorting by an integer key with Python's guarantee: equal keys keep their order. */
module StableSorting {
  function Insert<T>(x: T, s: seq<T>, key: T -> int): seq<T> {
    if s == [] || key(x) <= key(s[0]) then [x] + s else [s[0]] + Insert(x, s[1..], key)
  }

  lemma InsertInFront<T>(x: T, s: seq<T>, key: T -> int)
    requires s != [] ==> key(x) <= key(s[0])
    ensures Insert(x, s, key) == [x] + s
  {
  }

  lemma InsertBehind<T>(x: T, head: T, tail: seq<T>, key: T -> int)
    requires key(head) < key(x)
    ensures Insert(x, [head] + tail, key) == [head] + Insert(x, tail, key)
  {
    assert ([head] + tail)[1..] == tail;
  }

  function Sort<T>(s: seq<T>, key: T -> int): seq<T> {
    if s == [] then [] else Insert(s[0], Sort(s[1..], key), key)
  }

  ghost predicate Sorted<T>(s: seq<T>, key: T -> int) {
    forall i, j :: 0 <= i < j < |s| ==> key(s[i]) <= key(s[j])
  }

  /** The entries with one key, in order. */
  function WithKey<T>(s: seq<T>, key: T -> int, k: int): seq<T> {
    if s == [] then []
    else if key(s[0]) == k then [s[0]] + WithKey(s[1..], key, k)
    else WithKey(s[1..], key, k)
  }

  /** Same entries, and entries with equal keys in the same order. */
  ghost predicate StablyRearranged<T>(s: seq<T>, r: seq<T>, key: T -> int) {
    forall k :: WithKey(s, key, k) == WithKey(r, key, k)
  }

  lemma {:induction false} InsertIsStable<T>(x: T, s: seq<T>, key: T -> int, k: int)
    requires Sorted(s, key)
    ensures Sorted(Insert(x, s, key), key)
    ensures WithKey(Insert(x, s, key), key, k) == WithKey([x] + s, key, k)
    ensures forall y :: y in Insert(x, s, key) <==> y == x || y in s
  {
    assert ([x] + s)[1..] == s;
    if s == [] || key(x) <= key(s[0]) {
    } else {
      var tail := Insert(x, s[1..], key);
      InsertIsStable(x, s[1..], key, k);
      assert Insert(x, s, key) == [s[0]] + tail && ([s[0]] + tail)[1..] == tail;
      assert ([x] + s[1..])[1..] == s[1..];
      assert forall j :: 0 <= j < |tail| ==> tail[j] in tail;
      assert forall j :: 0 <= j < |s| ==> s[j] in s;
    }
  }

  lemma {:induction false} SortIsStable<T>(s: seq<T>, key: T -> int)
    ensures Sorted(Sort(s, key), key)
    ensures StablyRearranged(s, Sort(s, key), key)
  {
    if s != [] {
      SortIsStable(s[1..], key);
      var rest := Sort(s[1..], key);
      assert s == [s[0]] + s[1..];
      forall k
        ensures WithKey(s, key, k) == WithKey(Insert(s[0], rest, key), key, k)
      {
        InsertIsStable(s[0], rest, key, k);
        assert ([s[0]] + rest)[1..] == rest;
      }
      InsertIsStable(s[0], rest, key, 0);
    }
  }

  lemma {:induction false} InsertIsPermutation<T>(x: T, s: seq<T>, key: T -> int)
    ensures multiset(Insert(x, s, key)) == multiset(s) + multiset{x}
  {
    if s != [] && key(s[0]) < key(x) {
      InsertIsPermutation(x, s[1..], key);
      assert s == [s[0]] + s[1..];
    }
  }

  lemma {:induction false} SortIsPermutation<T>(s: seq<T>, key: T -> int)
    ensures multiset(Sort(s, key)) == multiset(s)
  {
    if s != [] {
      SortIsPermutation(s[1..], key);
      InsertIsPermutation(s[0], Sort(s[1..], key), key);
      assert s == [s[0]] + s[1..];
    }
  }

  lemma {:induction false} WithKeyFinds<T>(s: seq<T>, key: T -> int, i: nat)
    requires i < |s|
    ensures WithKey(s, key, key(s[i])) != []
  {
    if i != 0 && key(s[0]) != key(s[i]) {
      WithKeyFinds(s[1..], key, i - 1);
    }
  }

  lemma {:induction false} WithKeyHolds<T>(s: seq<T>, key: T -> int, k: int)
    ensures forall x :: x in WithKey(s, key, k) <==> x in s && key(x) == k
  {
    if s != [] {
      WithKeyHolds(s[1..], key, k);
      assert s == [s[0]] + s[1..];
    }
  }

  /** A sorted stable rearrangement is unique, so any correct stable sort computes Sort. */
  lemma {:induction false} SortedRearrangementIsUnique<T>(a: seq<T>, b: seq<T>, key: T -> int)
    requires Sorted(a, key) && Sorted(b, key) && StablyRearranged(a, b, key)
    ensures a == b
  {
    if a == [] || b == [] {
      if a != [] { WithKeyFinds(a, key, 0); }
      if b != [] { WithKeyFinds(b, key, 0); }
    } else {
      HeadsAgree(a, b, key);
      HeadsAgree(b, a, key);
      var k := key(a[0]);
      assert WithKey(a, key, k) == [a[0]] + WithKey(a[1..], key, k);
      assert WithKey(b, key, k) == [b[0]] + WithKey(b[1..], key, k);
      assert a[0] == WithKey(a, key, k)[0] == b[0];
      forall j
        ensures WithKey(a[1..], key, j) == WithKey(b[1..], key, j)
      {
        assert WithKey(a, key, j) == WithKey(b, key, j);
        if j == k {
          assert WithKey(a[1..], key, k) == WithKey(a, key, k)[1..];
          assert WithKey(b[1..], key, k) == WithKey(b, key, k)[1..];
        }
      }
      SortedRearrangementIsUnique(a[1..], b[1..], key);
      assert a == [a[0]] + a[1..] && b == [b[0]] + b[1..];
    }
  }

  lemma HeadsAgree<T>(a: seq<T>, b: seq<T>, key: T -> int)
    requires a != [] && b != [] && Sorted(b, key) && StablyRearranged(a, b, key)
    ensures key(b[0]) <= key(a[0])
  {
    WithKeyFinds(a, key, 0);
    var k := key(a[0]);
    assert WithKey(a, key, k) == WithKey(b, key, k);
    WithKeyHolds(b, key, k);
    var x := WithKey(b, key, k)[0];
    assert x in WithKey(b, key, k);
    var i :| 0 <= i < |b| && b[i] == x;
  }

  // ---------- the head of a sorted list ----------

  lemma {:induction false} SortHeadIsFirstMinimum<T>(s: seq<T>, key: T -> int)
    requires s != []
    ensures |Sort(s, key)| > 0
    ensures exists i :: FirstMinimum(s, key, i) && Sort(s, key)[0] == s[i]
  {
    if s[1..] == [] {
      assert FirstMinimum(s, key, 0) && Sort(s, key) == [s[0]];
    } else {
      SortHeadIsFirstMinimum(s[1..], key);
      var i :| FirstMinimum(s[1..], key, i) && Sort(s[1..], key)[0] == s[1..][i];
      if key(s[0]) <= key(s[1..][i]) {
        assert forall j :: 1 <= j < |s| ==> s[j] == s[1..][j - 1];
        assert FirstMinimum(s, key, 0);
      } else {
        assert forall j :: 1 <= j < |s| ==> s[j] == s[1..][j - 1];
        assert FirstMinimum(s, key, i + 1);
      }
    }
  }

  /** Position i holds the least key, and everything before it is strictly larger. */
  ghost predicate FirstMinimum<T>(s: seq<T>, key: T -> int, i: int) {
    && 0 <= i < |s|
    && (forall j :: 0 <= j < |s| ==> key(s[i]) <= key(s[j]))
    && (forall j :: 0 <= j < i ==> key(s[i]) < key(s[j]))
  }
}
