/** Go's `sort.Slice` as the engine uses it.  From Go 1.19 on, `sort.Slice`
    runs a plain insertion sort on slices of at most twelve elements, and
    every slice the engine sorts (five cards, at most eight players) is that
    short, so the model is the stable insertion sort: an element moves left
    past strictly greater keys only. */
module Sorting {

  predicate SortedBy<T>(s: seq<T>, key: T -> int)
  {
    forall i, j :: 0 <= i < j < |s| ==> key(s[i]) <= key(s[j])
  }

  /** Inserts `x` behind the last element whose key is not greater than its own. */
  function Insert<T>(s: seq<T>, x: T, key: T -> int): (r: seq<T>)
    ensures |r| == |s| + 1
    decreases |s|
  {
    if s == [] || key(s[|s| - 1]) <= key(x) then s + [x]
    else Insert(s[..|s| - 1], x, key) + [s[|s| - 1]]
  }

  lemma {:induction false} InsertPermutes<T>(s: seq<T>, x: T, key: T -> int)
    ensures multiset(Insert(s, x, key)) == multiset(s) + multiset{x}
    decreases |s|
  {
    if s != [] && key(x) < key(s[|s| - 1]) {
      assert s == s[..|s| - 1] + [s[|s| - 1]];
      InsertPermutes(s[..|s| - 1], x, key);
    }
  }

  lemma {:induction false} InsertSorted<T>(s: seq<T>, x: T, key: T -> int)
    requires SortedBy(s, key)
    ensures SortedBy(Insert(s, x, key), key)
    decreases |s|
  {
    if s != [] && key(x) < key(s[|s| - 1]) {
      var init := s[..|s| - 1];
      var last := s[|s| - 1];
      assert s == init + [last];
      assert SortedBy(init, key);
      InsertSorted(init, x, key);
      InsertPermutes(init, x, key);
      var ins := Insert(init, x, key);
      forall i | 0 <= i < |ins|
        ensures key(ins[i]) <= key(last)
      {
        assert ins[i] in multiset(ins);
        assert ins[i] in multiset(init) || ins[i] == x;
        if ins[i] in multiset(init) {
          assert ins[i] in init;
        }
      }
    }
  }

  /** The insertion sort: each element in turn is inserted into the sorted prefix. */
  function SortBy<T>(s: seq<T>, key: T -> int): (r: seq<T>)
    ensures |r| == |s|
    decreases |s|
  {
    if s == [] then []
    else Insert(SortBy(s[..|s| - 1], key), s[|s| - 1], key)
  }

  /** The sort is ordered by key and keeps exactly the elements it was given. */
  lemma {:induction false} SortByCorrect<T>(s: seq<T>, key: T -> int)
    ensures SortedBy(SortBy(s, key), key)
    ensures multiset(SortBy(s, key)) == multiset(s)
    decreases |s|
  {
    if s != [] {
      var init := s[..|s| - 1];
      assert s == init + [s[|s| - 1]];
      SortByCorrect(init, key);
      InsertSorted(SortBy(init, key), s[|s| - 1], key);
      InsertPermutes(SortBy(init, key), s[|s| - 1], key);
    }
  }

  /** sort.Slice, in place: `a` ends up holding the insertion sort of its old contents. */
  method SortSlice<T>(a: array<T>, key: T -> int)
    modifies a
    ensures a[..] == SortBy(old(a[..]), key)
  {
    ghost var s := a[..];
    var i := if a.Length == 0 then 0 else 1;
    assert s[..i] == [] || s[..i] == [s[0]];
    while i < a.Length
      invariant 0 <= i <= a.Length
      invariant a[..i] == SortBy(s[..i], key)
      invariant a[i..] == s[i..]
    {
      InsertionStep(a, i, key);
      SortStep(s, key, i);
      assert s[i..][0] == s[i];
      assert s[i..][1..] == s[i + 1..];
      i := i + 1;
    }
    assert a[..] == a[..a.Length] && s == s[..a.Length];
  }

  /** One pass of the outer loop: `a[i]` is swapped left into the sorted prefix `a[..i]`. */
  method InsertionStep<T>(a: array<T>, i: int, key: T -> int)
    requires 0 <= i < a.Length
    modifies a
    ensures a[..i + 1] == Insert(old(a[..i]), old(a[i]), key)
    ensures a[i + 1..] == old(a[i + 1..])
  {
    ghost var sorted := a[..i];
    ghost var x := a[i];
    ghost var rest := a[i + 1..];
    assert a[..] == sorted + [x] + rest by {
      assert a[..] == a[..i] + [a[i]] + a[i + 1..];
    }
    var j := SwapLeft(a, i, key, sorted, x, rest);
    InsertStops(sorted, x, key, j);
    Split(sorted[..j] + [x] + sorted[j..], rest);
  }

  /** The inner loop of the insertion sort: `a[i]` is swapped left while its
      left neighbour has a larger key. */
  method SwapLeft<T>(a: array<T>, i: int, key: T -> int, ghost sorted: seq<T>, ghost x: T, ghost rest: seq<T>)
      returns (j: int)
    requires 0 <= i == |sorted| < a.Length
    requires a[..] == sorted + [x] + rest
    modifies a
    ensures 0 <= j <= i && (j == 0 || key(sorted[j - 1]) <= key(x))
    ensures a[..] == sorted[..j] + [x] + sorted[j..] + rest
    ensures Insert(sorted, x, key) == Insert(sorted[..j], x, key) + sorted[j..]
  {
    j := i;
    assert sorted[..j] == sorted && sorted[j..] == [];
    while j > 0 && key(a[j]) < key(a[j - 1])
      invariant 0 <= j <= i
      invariant a[..] == sorted[..j] + [x] + sorted[j..] + rest
      invariant Insert(sorted, x, key) == Insert(sorted[..j], x, key) + sorted[j..]
    {
      InsertPastGreater(sorted, x, key, j);
      ghost var before := a[..];
      a[j], a[j - 1] := a[j - 1], a[j];
      assert a[..] == before[j - 1 := before[j]][j := before[j - 1]];
      SwapDown(before, sorted, x, rest, j);
      j := j - 1;
    }
    assert j > 0 ==> a[j] == x && a[j - 1] == sorted[j - 1];
  }

  /** Swapping the inserted element with its left neighbour moves it one
      place left in the layout of the insertion. */
  lemma SwapDown<T>(before: seq<T>, sorted: seq<T>, x: T, rest: seq<T>, j: nat)
    requires 0 < j <= |sorted|
    requires before == sorted[..j] + [x] + sorted[j..] + rest
    ensures before[j - 1 := before[j]][j := before[j - 1]] == sorted[..j - 1] + [x] + sorted[j - 1..] + rest
  {
    var after := before[j - 1 := before[j]][j := before[j - 1]];
    var want := sorted[..j - 1] + [x] + sorted[j - 1..] + rest;
    assert |after| == |want|;
    forall k | 0 <= k < |after|
      ensures after[k] == want[k]
    {
      if k < j - 1 {
      } else if k == j - 1 {
      } else if k == j {
      } else if k < |sorted| + 1 {
      } else {
      }
    }
  }

  /** The two halves of a concatenation. */
  lemma Split<T>(u: seq<T>, v: seq<T>)
    ensures (u + v)[..|u|] == u && (u + v)[|u|..] == v
  {
  }

  lemma InsertPastGreater<T>(sorted: seq<T>, x: T, key: T -> int, j: int)
    requires 0 < j <= |sorted|
    requires key(x) < key(sorted[j - 1])
    ensures Insert(sorted[..j], x, key) + sorted[j..]
         == Insert(sorted[..j - 1], x, key) + sorted[j - 1..]
  {
    assert sorted[..j][..j - 1] == sorted[..j - 1];
    assert sorted[j - 1..] == [sorted[j - 1]] + sorted[j..];
  }

  lemma InsertStops<T>(sorted: seq<T>, x: T, key: T -> int, j: int)
    requires 0 <= j <= |sorted|
    requires j == 0 || key(sorted[j - 1]) <= key(x)
    ensures Insert(sorted[..j], x, key) == sorted[..j] + [x]
  {
  }

  lemma SortStep<T>(s: seq<T>, key: T -> int, i: int)
    requires 0 <= i < |s|
    ensures SortBy(s[..i + 1], key) == Insert(SortBy(s[..i], key), s[i], key)
  {
    assert s[..i + 1][..i] == s[..i];
  }

  lemma SortSnoc<T>(s: seq<T>, x: T, key: T -> int)
    ensures SortBy(s + [x], key) == Insert(SortBy(s, key), x, key)
  {
    assert (s + [x])[..|s|] == s;
  }

  /** A sorted sequence is its own sort. */
  lemma {:induction false} SortSorted<T>(s: seq<T>, key: T -> int)
    requires SortedBy(s, key)
    ensures SortBy(s, key) == s
    decreases |s|
  {
    if s != [] {
      var init := s[..|s| - 1];
      assert SortedBy(init, key);
      SortSorted(init, key);
      assert SortBy(s, key) == Insert(init, s[|s| - 1], key);
      assert init == [] || key(init[|init| - 1]) <= key(s[|s| - 1]);
      assert s == init + [s[|s| - 1]];
    }
  }

  /** Sorting twice is sorting once. */
  lemma SortIdempotent<T>(s: seq<T>, key: T -> int)
    ensures SortBy(SortBy(s, key), key) == SortBy(s, key)
  {
    SortByCorrect(s, key);
    SortSorted(SortBy(s, key), key);
  }

  /** The keys of a sequence, in order. */
  function Keys<T>(s: seq<T>, key: T -> int): (r: seq<int>)
    ensures |r| == |s| && forall i | 0 <= i < |s| :: r[i] == key(s[i])
  {
    seq(|s|, i requires 0 <= i < |s| => key(s[i]))
  }

  /** The key sequence of a sort depends only on the multiset of the input: two
      inputs holding the same elements sort to the same keys, whatever order
      the equal-key elements end up in. */
  lemma SortedKeysDetermined<T>(a: seq<T>, b: seq<T>, key: T -> int)
    requires multiset(a) == multiset(b)
    ensures Keys(SortBy(a, key), key) == Keys(SortBy(b, key), key)
  {
    SortByCorrect(a, key);
    SortByCorrect(b, key);
    var sa, sb := SortBy(a, key), SortBy(b, key);
    KeysPermute(sa, sb, key);
    SortedUnique(Keys(sa, key), Keys(sb, key));
  }

  lemma {:induction false} KeysPermute<T>(a: seq<T>, b: seq<T>, key: T -> int)
    requires multiset(a) == multiset(b)
    ensures multiset(Keys(a, key)) == multiset(Keys(b, key))
    decreases |a|
  {
    if a != [] {
      var n := |a| - 1;
      var x := a[n];
      assert x in multiset(b) by {
        assert a == a[..n] + [x];
      }
      var j :| 0 <= j < |b| && b[j] == x;
      var rest := b[..j] + b[j + 1..];
      RemoveMatching(a, b, j);
      KeysPermute(a[..n], rest, key);
      var ka, k1, k2 := Keys(a[..n], key), Keys(b[..j], key), Keys(b[j + 1..], key);
      assert Keys(a, key) == ka + [key(x)] by {
        KeysSplit(a, n, key);
        assert a[n + 1..] == [];
      }
      assert Keys(b, key) == k1 + [key(x)] + k2 by {
        KeysSplit(b, j, key);
      }
      assert Keys(rest, key) == k1 + k2 by {
        KeysAppend(b[..j], b[j + 1..], key);
      }
      assert multiset(ka) == multiset(k1) + multiset(k2);
    }
  }

  /** Taking the last element off one list and a matching element out of
      the other keeps two permutations of each other. */
  lemma RemoveMatching<T>(a: seq<T>, b: seq<T>, j: nat)
    requires multiset(a) == multiset(b) && a != [] && j < |b| && b[j] == a[|a| - 1]
    ensures multiset(a[..|a| - 1]) == multiset(b[..j] + b[j + 1..])
  {
    var n := |a| - 1;
    assert a == a[..n] + [a[n]];
    assert b == b[..j] + [b[j]] + b[j + 1..];
    assert multiset(a) == multiset(a[..n]) + multiset{a[n]};
    assert multiset(b) == multiset(b[..j]) + multiset{b[j]} + multiset(b[j + 1..]);
    assert multiset(b[..j] + b[j + 1..]) == multiset(b[..j]) + multiset(b[j + 1..]);
    assert multiset(a[..n]) == multiset(a) - multiset{a[n]};
  }

  /** The keys around one position. */
  lemma KeysSplit<T>(s: seq<T>, j: nat, key: T -> int)
    requires j < |s|
    ensures Keys(s, key) == Keys(s[..j], key) + [key(s[j])] + Keys(s[j + 1..], key)
  {
  }

  lemma KeysAppend<T>(s: seq<T>, t: seq<T>, key: T -> int)
    ensures Keys(s + t, key) == Keys(s, key) + Keys(t, key)
  {
  }

  predicate Ascending(x: seq<int>)
  {
    forall i, j | 0 <= i < j < |x| :: x[i] <= x[j]
  }

  /** Two ascending integer sequences with the same elements are equal. */
  lemma {:induction false} SortedUnique(x: seq<int>, y: seq<int>)
    requires Ascending(x) && Ascending(y)
    requires multiset(x) == multiset(y)
    ensures x == y
    decreases |x|
  {
    assert |y| == |x| by {
      assert |multiset(x)| == |multiset(y)|;
    }
    if x != [] {
      var n := |x| - 1;
      assert x[n] == y[n] by {
        SortedLast(x, y);
        SortedLast(y, x);
      }
      assert multiset(x[..n]) == multiset(y[..n]) by {
        DropLast(x);
        DropLast(y);
      }
      assert Ascending(x[..n]) && Ascending(y[..n]);
      SortedUnique(x[..n], y[..n]);
      assert x == x[..n] + [x[n]] && y == y[..n] + [y[n]];
    }
  }

  /** The last element of an ascending sequence is at least every element of
      a sequence with the same elements. */
  lemma SortedLast(x: seq<int>, y: seq<int>)
    requires Ascending(x)
    requires multiset(x) == multiset(y) && |x| == |y| > 0
    ensures y[|y| - 1] <= x[|x| - 1]
  {
    assert y[|y| - 1] in multiset(x);
    var i :| 0 <= i < |x| && x[i] == y[|y| - 1];
  }

  lemma DropLast(x: seq<int>)
    requires |x| > 0
    ensures multiset(x[..|x| - 1]) == multiset(x) - multiset{x[|x| - 1]}
  {
    assert x == x[..|x| - 1] + [x[|x| - 1]];
  }
}
