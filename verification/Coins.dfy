/** Coins as the wallet handles them (SpendableTXO in wtxmgr/tx.go). */
module Coins {

  datatype OutPoint = OutPoint(txHash: nat, index: nat)

  /** `pseudonymous`, `pseudonymousCT` and `ctaut` are bits of the packed flag; a coin with
      neither pseudonym bit is a ring coin. */
  datatype Coin = Coin(
    outPoint: OutPoint,
    version: nat,
    amount: nat,
    pseudonymous: bool,
    pseudonymousCT: bool,
    ctaut: bool)

  function Total(coins: seq<Coin>): nat {
    if coins == [] then 0 else coins[0].amount + Total(coins[1..])
  }

  lemma {:induction false} TotalConcat(a: seq<Coin>, b: seq<Coin>)
    ensures Total(a + b) == Total(a) + Total(b)
  {
    if a == [] {
      assert a + b == b;
    } else {
      assert (a + b)[1..] == a[1..] + b;
      TotalConcat(a[1..], b);
    }
  }

  /** The list without one of its coins. */
  lemma TotalWithout(coins: seq<Coin>, i: nat)
    requires i < |coins|
    ensures Total(coins) == coins[i].amount + Total(coins[..i] + coins[i + 1..])
  {
    var front, back := coins[..i], coins[i + 1..];
    var tail := [coins[i]] + back;
    assert coins == front + tail && tail[1..] == back;
    TotalConcat(front, tail);
    TotalConcat(front, back);
  }

  lemma MultisetWithout<T>(s: seq<T>, i: nat)
    requires i < |s|
    ensures multiset(s[..i] + s[i + 1..]) == multiset(s) - multiset{s[i]}
  {
    assert s == s[..i] + [s[i]] + s[i + 1..];
  }

  lemma {:induction false} TotalOfMultiset(a: seq<Coin>, b: seq<Coin>)
    requires multiset(a) == multiset(b)
    ensures Total(a) == Total(b)
    decreases |a|
  {
    if a == [] {
      assert |b| == |multiset(b)| == 0;
    } else {
      assert a[0] in multiset(b);
      var i :| 0 <= i < |b| && b[i] == a[0];
      assert a[..0] + a[1..] == a[1..];
      MultisetWithout(a, 0);
      MultisetWithout(b, i);
      TotalOfMultiset(a[1..], b[..i] + b[i + 1..]);
      TotalWithout(b, i);
    }
  }

  // ----- lists without repetition -----

  ghost predicate AllDifferent<T>(s: seq<T>) {
    forall i, j :: 0 <= i < j < |s| ==> s[i] != s[j]
  }

  function Elements<T>(s: seq<T>): set<T> {
    set x | x in s
  }

  lemma AllDifferentSnoc<T>(s: seq<T>, x: T)
    ensures AllDifferent(s + [x]) <==> AllDifferent(s) && x !in s
  {
    var t := s + [x];
    if AllDifferent(t) {
      forall i, j | 0 <= i < j < |s|
        ensures s[i] != s[j]
      {
        assert t[i] != t[j];
      }
      forall i | 0 <= i < |s|
        ensures s[i] != x
      {
        assert t[i] != t[|s|];
      }
    }
  }

  /** A list has as many elements as entries exactly when none occurs twice. */
  lemma {:induction false} ElementsBound<T>(s: seq<T>)
    ensures |Elements(s)| <= |s|
    ensures |Elements(s)| == |s| <==> AllDifferent(s)
  {
    if s != [] {
      var init, last := s[..|s| - 1], s[|s| - 1];
      ElementsBound(init);
      AllDifferentSnoc(init, last);
      assert s == init + [last];
      assert Elements(s) == Elements(init) + {last};
      if last in Elements(init) {
        assert Elements(s) == Elements(init);
      }
    }
  }

  lemma SubsetOfSameSize<T>(a: set<T>, b: set<T>)
    requires a <= b && |a| == |b|
    ensures a == b
  {
    forall x | x in b
      ensures x in a
    {
      if x !in a {
        SubsetSize(a, b - {x});
      }
    }
  }

  lemma {:induction false} SubsetSize<T>(a: set<T>, b: set<T>)
    requires a <= b
    ensures |a| <= |b|
    decreases |a|
  {
    if a != {} {
      var x :| x in a;
      SubsetSize(a - {x}, b - {x});
    }
  }

  lemma SameLength<T>(a: seq<T>, b: seq<T>)
    requires multiset(a) == multiset(b)
    ensures |a| == |b|
  {
    assert |a| == |multiset(a)| && |b| == |multiset(b)|;
  }

  lemma MultisetJoin<T>(a: seq<T>, b: seq<T>)
    ensures multiset(a + b) == multiset(a) + multiset(b)
  {
  }

  function Points(coins: seq<Coin>): seq<OutPoint> {
    seq(|coins|, i requires 0 <= i < |coins| => coins[i].outPoint)
  }

  /** No outpoint twice. */
  ghost predicate Distinct(coins: seq<Coin>) { AllDifferent(Points(coins)) }

  lemma DistinctSnoc(coins: seq<Coin>, c: Coin)
    ensures Distinct(coins + [c]) <==> Distinct(coins) && forall d <- coins :: d.outPoint != c.outPoint
  {
    assert Points(coins + [c]) == Points(coins) + [c.outPoint];
    AllDifferentSnoc(Points(coins), c.outPoint);
    PointsOf(coins);
    assert c.outPoint in Points(coins) <==> c.outPoint in Elements(Points(coins));
  }

  lemma DistinctCons(c: Coin, coins: seq<Coin>)
    ensures Distinct([c] + coins) <==> Distinct(coins) && forall d <- coins :: d.outPoint != c.outPoint
  {
    var all := [c] + coins;
    assert Points(all) == [c.outPoint] + Points(coins);
    ElementsBound(Points(all));
    ElementsBound(Points(coins));
    PointsOf(coins);
    assert Elements(Points(all)) == {c.outPoint} + Elements(Points(coins));
    if c.outPoint in Elements(Points(coins)) {
      assert Elements(Points(all)) == Elements(Points(coins));
    }
  }

  lemma FrontDistinct(coins: seq<Coin>, n: nat)
    requires Distinct(coins) && n <= |coins|
    ensures Distinct(coins[..n])
  {
    forall i, j | 0 <= i < j < n
      ensures Points(coins[..n])[i] != Points(coins[..n])[j]
    {
      assert Points(coins)[i] != Points(coins)[j];
    }
  }

  lemma SamePointSameCoin(coins: seq<Coin>, c: Coin, d: Coin)
    requires Distinct(coins) && c in coins && d in coins && c.outPoint == d.outPoint
    ensures c == d
  {
    var i :| 0 <= i < |coins| && coins[i] == c;
    var j :| 0 <= j < |coins| && coins[j] == d;
    assert Points(coins)[i] == Points(coins)[j];
  }

  lemma PointsOf(coins: seq<Coin>)
    ensures Elements(Points(coins)) == set c | c in coins :: c.outPoint
  {
    forall c | c in coins
      ensures c.outPoint in Points(coins)
    {
      var i :| 0 <= i < |coins| && coins[i] == c;
      assert Points(coins)[i] == c.outPoint;
    }
  }

  /** Distinctness does not depend on the order. */
  lemma DistinctPermuted(a: seq<Coin>, b: seq<Coin>)
    requires multiset(a) == multiset(b) && Distinct(a)
    ensures Distinct(b)
  {
    SameLength(a, b);
    ElementsBound(Points(a));
    PointsOf(a);
    PointsOf(b);
    assert forall c :: c in a <==> c in multiset(a);
    assert forall c :: c in b <==> c in multiset(b);
    assert Elements(Points(a)) == Elements(Points(b));
    ElementsBound(Points(b));
  }

  // ----- filtered lists -----

  /** The elements to keep, in order. */
  function Filter<T>(s: seq<T>, keep: T -> bool): seq<T> {
    if s == [] then []
    else Filter(s[..|s| - 1], keep) + if keep(s[|s| - 1]) then [s[|s| - 1]] else []
  }

  lemma {:induction false} FilterConcat<T>(a: seq<T>, b: seq<T>, keep: T -> bool)
    ensures Filter(a + b, keep) == Filter(a, keep) + Filter(b, keep)
    decreases |b|
  {
    if b == [] {
      assert a + b == a;
    } else {
      var init, last := b[..|b| - 1], b[|b| - 1];
      assert (a + b)[..|a + b| - 1] == a + init;
      FilterConcat(a, init, keep);
    }
  }

  lemma FilterCons<T>(x: T, s: seq<T>, keep: T -> bool)
    ensures Filter([x] + s, keep) == (if keep(x) then [x] else []) + Filter(s, keep)
  {
    FilterConcat([x], s, keep);
    assert [x][..0] == [];
  }

  lemma {:induction false} FilterIn<T>(s: seq<T>, keep: T -> bool)
    ensures forall x :: x in Filter(s, keep) <==> x in s && keep(x)
  {
    if s != [] {
      FilterIn(s[..|s| - 1], keep);
      assert s == s[..|s| - 1] + [s[|s| - 1]];
    }
  }

  /** Nothing is kept twice and the order is that of the list: the kept elements sit at
      increasing positions, and those are all positions of elements to keep. */
  ghost predicate KeptAt<T>(pos: seq<nat>, kept: seq<T>, all: seq<T>, keep: T -> bool) {
    |pos| == |kept|
    && (forall i :: 0 <= i < |pos| ==> pos[i] < |all| && kept[i] == all[pos[i]] && keep(all[pos[i]]))
    && (forall i, j :: 0 <= i < j < |pos| ==> pos[i] < pos[j])
    && (forall k :: 0 <= k < |all| && keep(all[k]) ==> k in pos)
  }

  lemma {:induction false} FilterPositions<T>(s: seq<T>, keep: T -> bool) returns (pos: seq<nat>)
    ensures KeptAt(pos, Filter(s, keep), s, keep)
  {
    if s == [] {
      pos := [];
    } else {
      var init, last := s[..|s| - 1], s[|s| - 1];
      var before := FilterPositions(init, keep);
      if keep(last) {
        pos := before + [|init|];
        OneMoreKept(before, Filter(init, keep), init, keep, last);
        assert s == init + [last];
      } else {
        pos := before;
        assert Filter(init, keep) + [] == Filter(init, keep);
      }
    }
  }

  lemma OneMoreKept<T>(pos: seq<nat>, kept: seq<T>, all: seq<T>, keep: T -> bool, x: T)
    requires KeptAt(pos, kept, all, keep) && keep(x)
    ensures KeptAt(pos + [|all|], kept + [x], all + [x], keep)
  {
    var next: seq<nat> := pos + [|all|];
    forall k | 0 <= k < |all| + 1 && keep((all + [x])[k])
      ensures k in next
    {
      if k < |all| {
        assert k in pos;
      } else {
        assert next[|pos|] == k;
      }
    }
  }

  /** The worth of the coins to keep. */
  function TotalOf(coins: seq<Coin>, keep: Coin -> bool): nat { Total(Filter(coins, keep)) }

  /** How many there are. */
  function CountOf<T>(s: seq<T>, keep: T -> bool): nat { |Filter(s, keep)| }
}
