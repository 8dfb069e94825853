/** sort.SliceStable as the wallet uses it: an in-place stable sort by a comparison closure.
    The specification says what every stable sort yields, and that there is only one. */
module StableSort {

  ghost predicate StrictWeakOrder<T(!new)>(less: (T, T) -> bool) {
    (forall x, y :: less(x, y) ==> !less(y, x))
    && (forall x, y, z :: less(x, y) ==> less(x, z) || less(z, y))
  }

  ghost predicate Ordered<T>(less: (T, T) -> bool, s: seq<T>) {
    forall i, j :: 0 <= i < j < |s| ==> !less(s[j], s[i])
  }

  /** Neither is less: a stable sort keeps such elements in their original order. */
  predicate Tied<T>(less: (T, T) -> bool, x: T, y: T) {
    !less(x, y) && !less(y, x)
  }

  /** The elements tied with x, in order. */
  function TiedWith<T>(less: (T, T) -> bool, s: seq<T>, x: T): seq<T> {
    if s == [] then []
    else (if Tied(less, x, s[0]) then [s[0]] else []) + TiedWith(less, s[1..], x)
  }

  ghost predicate IsStableSortOf<T(!new)>(less: (T, T) -> bool, sorted: seq<T>, s: seq<T>) {
    Ordered(less, sorted) && multiset(sorted) == multiset(s)
    && forall x :: TiedWith(less, sorted, x) == TiedWith(less, s, x)
  }

  /** Moves x down from the end past everything it is less than. */
  function Insert<T>(less: (T, T) -> bool, s: seq<T>, x: T): seq<T> {
    if s != [] && less(x, s[|s| - 1]) then Insert(less, s[..|s| - 1], x) + [s[|s| - 1]] else s + [x]
  }

  function Sorted<T>(less: (T, T) -> bool, s: seq<T>): seq<T> {
    if s == [] then [] else Insert(less, Sorted(less, s[..|s| - 1]), s[|s| - 1])
  }

  lemma {:induction false} TiedWithConcat<T>(less: (T, T) -> bool, s: seq<T>, t: seq<T>, x: T)
    ensures TiedWith(less, s + t, x) == TiedWith(less, s, x) + TiedWith(less, t, x)
  {
    if s == [] {
      assert s + t == t;
    } else {
      TiedWithConcat(less, s[1..], t, x);
      assert (s + t)[0] == s[0] && (s + t)[1..] == s[1..] + t;
      var head := if Tied(less, x, s[0]) then [s[0]] else [];
      assert head + (TiedWith(less, s[1..], x) + TiedWith(less, t, x))
          == (head + TiedWith(less, s[1..], x)) + TiedWith(less, t, x);
    }
  }

  lemma {:induction false} InsertMultiset<T>(less: (T, T) -> bool, s: seq<T>, x: T)
    ensures multiset(Insert(less, s, x)) == multiset(s) + multiset{x}
  {
    if s != [] && less(x, s[|s| - 1]) {
      InsertMultiset(less, s[..|s| - 1], x);
      assert s == s[..|s| - 1] + [s[|s| - 1]];
    }
  }

  lemma {:induction false} InsertStable<T(!new)>(less: (T, T) -> bool, s: seq<T>, x: T, c: T)
    requires StrictWeakOrder(less)
    ensures TiedWith(less, Insert(less, s, x), c) == TiedWith(less, s, c) + TiedWith(less, [x], c)
  {
    if s != [] && less(x, s[|s| - 1]) {
      var init, last := s[..|s| - 1], s[|s| - 1];
      assert s == init + [last];
      InsertStable(less, init, x, c);
      TiedWithConcat(less, Insert(less, init, x), [last], c);
      TiedWithConcat(less, init, [last], c);
      assert !(Tied(less, c, x) && Tied(less, c, last));
      assert TiedWith(less, [x], c) == [] || TiedWith(less, [last], c) == [];
    } else {
      TiedWithConcat(less, s, [x], c);
    }
  }

  lemma {:induction false} InsertOrdered<T(!new)>(less: (T, T) -> bool, s: seq<T>, x: T)
    requires StrictWeakOrder(less) && Ordered(less, s)
    ensures Ordered(less, Insert(less, s, x))
  {
    if s != [] && less(x, s[|s| - 1]) {
      var init, last := s[..|s| - 1], s[|s| - 1];
      InsertOrdered(less, init, x);
      InsertMultiset(less, init, x);
      var r := Insert(less, init, x);
      forall i | 0 <= i < |r|
        ensures !less(last, r[i])
      {
        assert r[i] in multiset(r);
        assert r[i] == x || r[i] in init;
      }
    } else if s != [] {
      var last := s[|s| - 1];
      forall i | 0 <= i < |s|
        ensures !less(x, s[i])
      {
        assert i < |s| - 1 ==> !less(last, s[i]);
      }
    }
  }

  /** The result is a stable sort. */
  lemma {:induction false} SortedIsStable<T(!new)>(less: (T, T) -> bool, s: seq<T>)
    requires StrictWeakOrder(less)
    ensures IsStableSortOf(less, Sorted(less, s), s)
  {
    if s != [] {
      var init, last := s[..|s| - 1], s[|s| - 1];
      assert s == init + [last];
      SortedIsStable(less, init);
      InsertOrdered(less, Sorted(less, init), last);
      InsertMultiset(less, Sorted(less, init), last);
      forall x
        ensures TiedWith(less, Sorted(less, s), x) == TiedWith(less, s, x)
      {
        InsertStable(less, Sorted(less, init), last, x);
        TiedWithConcat(less, init, [last], x);
      }
    }
  }

  lemma {:induction false} TiedOccurs<T>(less: (T, T) -> bool, s: seq<T>, x: T) returns (i: nat)
    requires TiedWith(less, s, x) != []
    ensures i < |s| && Tied(less, x, s[i])
  {
    if Tied(less, x, s[0]) {
      i := 0;
    } else {
      var j := TiedOccurs(less, s[1..], x);
      i := j + 1;
    }
  }

  lemma HeadTied<T(!new)>(less: (T, T) -> bool, s: seq<T>)
    requires StrictWeakOrder(less) && s != []
    ensures TiedWith(less, s, s[0]) != [] && TiedWith(less, s, s[0])[0] == s[0]
  {
    assert Tied(less, s[0], s[0]);
  }

  /** There is only one stable sort of a list, so it does not matter which algorithm the
      library uses. */
  lemma {:induction false} StableSortUnique<T(!new)>(less: (T, T) -> bool, s: seq<T>, t: seq<T>)
    requires StrictWeakOrder(less) && Ordered(less, s) && Ordered(less, t)
    requires forall x :: TiedWith(less, s, x) == TiedWith(less, t, x)
    ensures s == t
    decreases |s|
  {
    if s == [] {
      if t != [] {
        HeadTied(less, t);
      }
    } else {
      assert Tied(less, s[0], s[0]) && TiedWith(less, t, s[0]) != [];
      var i := TiedOccurs(less, t, s[0]);
      assert TiedWith(less, s, t[0]) != [] by {
        assert Tied(less, t[0], t[0]);
      }
      var j := TiedOccurs(less, s, t[0]);
      assert i > 0 ==> !less(t[i], t[0]);
      assert j > 0 ==> !less(s[j], s[0]);
      assert Tied(less, s[0], t[0]);
      assert TiedWith(less, s, s[0])[0] == s[0] && TiedWith(less, t, s[0])[0] == t[0];
      forall x
        ensures TiedWith(less, s[1..], x) == TiedWith(less, t[1..], x)
      {
        assert TiedWith(less, s, x) == TiedWith(less, t, x);
        if Tied(less, x, s[0]) {
          assert TiedWith(less, s[1..], x) == TiedWith(less, s, x)[1..];
          assert TiedWith(less, t[1..], x) == TiedWith(less, t, x)[1..];
        } else {
          assert TiedWith(less, s[1..], x) == TiedWith(less, s, x);
          assert TiedWith(less, t[1..], x) == TiedWith(less, t, x);
        }
      }
      StableSortUnique(less, s[1..], t[1..]);
      assert s == [s[0]] + s[1..] && t == [t[0]] + t[1..];
    }
  }

  /** Sorting leaves a list alone iff it is ordered. */
  lemma {:induction false} OrderedIsFixpoint<T(!new)>(less: (T, T) -> bool, s: seq<T>)
    requires Ordered(less, s)
    ensures Sorted(less, s) == s
  {
    if s != [] {
      OrderedIsFixpoint(less, s[..|s| - 1]);
      assert s == s[..|s| - 1] + [s[|s| - 1]];
    }
  }

  lemma {:induction false} InsertAt<T>(less: (T, T) -> bool, s: seq<T>, x: T, j: nat)
    requires j <= |s|
    requires forall k :: j <= k < |s| ==> less(x, s[k])
    requires j == 0 || !less(x, s[j - 1])
    ensures Insert(less, s, x) == s[..j] + [x] + s[j..]
  {
    if j < |s| {
      var init := s[..|s| - 1];
      InsertAt(less, init, x, j);
      assert init[..j] == s[..j] && init[j..] + [s[|s| - 1]] == s[j..];
    } else {
      assert s[..j] == s && s[j..] == [];
    }
  }

  /** Sinks a[i] into the sorted part below it. */
  method Sink<T>(a: array<T>, less: (T, T) -> bool, i: nat)
    requires i < a.Length
    modifies a
    ensures a[..i + 1] == Insert(less, old(a[..i]), old(a[i]))
    ensures a[i + 1..] == old(a[i + 1..])
  {
    ghost var was, x := a[..], a[i];
    var j := i;
    while j > 0 && less(a[j], a[j - 1])
      invariant 0 <= j <= i
      invariant forall k :: 0 <= k < j ==> a[k] == was[k]
      invariant a[j] == x
      invariant forall k :: j < k <= i ==> a[k] == was[k - 1]
      invariant forall k :: i < k < a.Length ==> a[k] == was[k]
      invariant forall k :: j <= k < i ==> less(x, was[k])
    {
      a[j], a[j - 1] := a[j - 1], a[j];
      j := j - 1;
    }
    InsertAt(less, was[..i], x, j);
    assert a[..i + 1] == was[..i][..j] + [x] + was[..i][j..];
    assert a[i + 1..] == was[i + 1..];
  }

  /** In-place insertion sort, the algorithm sort.SliceStable uses on short slices. */
  method SliceStable<T>(a: array<T>, less: (T, T) -> bool)
    modifies a
    ensures a[..] == Sorted(less, old(a[..]))
  {
    ghost var was := a[..];
    var i := 0;
    while i < a.Length
      invariant 0 <= i <= a.Length
      invariant a[..i] == Sorted(less, was[..i])
      invariant a[i..] == was[i..]
    {
      SortedNext(less, was, i);
      assert a[i] == a[i..][0] == was[i];
      assert a[i + 1..] == a[i..][1..];
      Sink(a, less, i);
      i := i + 1;
    }
    assert a[..] == a[..i] && was[..i] == was;
  }

  lemma SortedNext<T>(less: (T, T) -> bool, s: seq<T>, i: nat)
    requires i < |s|
    ensures Sorted(less, s[..i + 1]) == Insert(less, Sorted(less, s[..i]), s[i])
  {
    assert s[..i + 1][..i] == s[..i];
  }
}
