/** Where the token coins sit in a token transaction (wallet/createauttx.go) and why they are
    still there after the transaction builder sorts again (wallet/createtx.go). */
module TokenLayout {
  import opened Coins
  import opened StableSort

  /** Privacy levels in the order of their numbers: the two ring levels below the pseudonym
      levels. */
  datatype PrivacyLevel = RingCTPre | RingCT | Pseudonym | PseudonymCT

  /** An output description; `address` tells equal-looking outputs apart. */
  datatype OutDesc = OutDesc(level: PrivacyLevel, value: nat, address: nat)

  predicate IsPseudonym(level: PrivacyLevel) {
    level.Pseudonym? || level.PseudonymCT?
  }

  // ----- the comparison closures, branch by branch -----

  predicate OutLessFirst(x: OutDesc, y: OutDesc) {
    if !IsPseudonym(x.level) && IsPseudonym(y.level) then true
    else if x.level.PseudonymCT? && y.level.PseudonymCT? then x.value == 1 && y.value != 1
    else if x.level.PseudonymCT? && y.level.Pseudonym? then true
    else false
  }

  predicate OutLessFinal(x: OutDesc, y: OutDesc) {
    if IsPseudonym(x.level) && !IsPseudonym(y.level) then false
    else if !IsPseudonym(x.level) && IsPseudonym(y.level) then true
    else if !IsPseudonym(x.level) && !IsPseudonym(y.level) then false
    else x.level.PseudonymCT? && !y.level.PseudonymCT?
  }

  predicate IsPseudonymCoin(c: Coin) {
    c.pseudonymous || c.pseudonymousCT
  }

  predicate InLessFirst(x: Coin, y: Coin) {
    if !IsPseudonymCoin(x) && IsPseudonymCoin(y) then true
    else if x.pseudonymousCT && y.pseudonymousCT then false
    else if x.pseudonymousCT && y.pseudonymous then true
    else false
  }

  predicate InLessFinal(x: Coin, y: Coin) {
    if IsPseudonymCoin(x) && !IsPseudonymCoin(y) then false
    else if !IsPseudonymCoin(x) && IsPseudonymCoin(y) then true
    else if !IsPseudonymCoin(x) && !IsPseudonymCoin(y) then false
    else x.pseudonymousCT && !y.pseudonymousCT
  }

  // ----- what they have in common -----

  /** Ring before CT pseudonym before pseudonym. */
  function OutRank(x: OutDesc): nat {
    match x.level
    case RingCTPre => 0
    case RingCT => 0
    case PseudonymCT => 1
    case Pseudonym => 2
  }

  function InRank(c: Coin): nat {
    if !IsPseudonymCoin(c) then 0 else if c.pseudonymousCT then 1 else 2
  }

  // ----- the orders, level by level -----

  predicate IsRing(o: OutDesc) { o.level.RingCTPre? || o.level.RingCT? }

  /** Sorted for the builder: ring outputs, then CT pseudonym ones, then pseudonym ones. */
  lemma FinalOutputs(outs: seq<OutDesc>)
    ensures Ordered(OutLessFinal, outs)
            <==> forall i, j :: 0 <= i < j < |outs| ==>
                   (IsRing(outs[j]) ==> IsRing(outs[i])) && (outs[j].level.PseudonymCT? ==> !outs[i].level.Pseudonym?)
  {
    assert forall x: OutDesc, y: OutDesc ::
      (OutLessFinal(y, x) <==> (IsRing(y) && !IsRing(x)) || (y.level.PseudonymCT? && x.level.Pseudonym?));
  }

  ghost predicate RootsFirst(outs: seq<OutDesc>) {
    forall i, j :: 0 <= i < j < |outs| ==> (IsRoot(outs[j]) && outs[i].level.PseudonymCT? ==> IsRoot(outs[i]))
  }

  predicate IsRoot(o: OutDesc) { o.level.PseudonymCT? && o.value == 1 }

  /** Sorted first: the same, with the CT pseudonym outputs of value 1, token roots, in front of
      the other CT pseudonym ones. */
  lemma FirstOutputs(outs: seq<OutDesc>)
    ensures Ordered(OutLessFirst, outs) <==> Ordered(OutLessFinal, outs) && RootsFirst(outs)
  {
    assert forall x: OutDesc, y: OutDesc ::
      (OutLessFirst(y, x)
       <==> OutLessFinal(y, x) || (y.level.PseudonymCT? && x.level.PseudonymCT? && y.value == 1 && x.value != 1));
    if Ordered(OutLessFirst, outs) {
      forall i, j | 0 <= i < j < |outs|
        ensures !OutLessFinal(outs[j], outs[i])
      {
        assert !OutLessFirst(outs[j], outs[i]);
      }
      forall i, j | 0 <= i < j < |outs| && outs[i].level.PseudonymCT? && IsRoot(outs[j])
        ensures IsRoot(outs[i])
      {
        assert !OutLessFirst(outs[j], outs[i]);
      }
    }
  }

  /** Inputs: coins with neither pseudonym bit, then those with the CT bit, then the others;
      both sorts agree. */
  lemma FinalInputs(coins: seq<Coin>)
    ensures Ordered(InLessFinal, coins) <==> Ordered(InLessFirst, coins)
    ensures Ordered(InLessFinal, coins)
            <==> forall i, j :: 0 <= i < j < |coins| ==>
                   (!coins[j].pseudonymous && !coins[j].pseudonymousCT ==> !coins[i].pseudonymous && !coins[i].pseudonymousCT)
                   && (coins[j].pseudonymousCT ==> coins[i].pseudonymousCT || !coins[i].pseudonymous)
  {
    assert forall x: Coin, y: Coin ::
      (InLessFinal(y, x)
       <==> (!y.pseudonymous && !y.pseudonymousCT && (x.pseudonymous || x.pseudonymousCT))
            || (y.pseudonymousCT && x.pseudonymous && !x.pseudonymousCT));
    assert forall x: Coin, y: Coin :: InLessFirst(y, x) <==> InLessFinal(y, x);
  }

  /** The final order compares ranks; the first one refines it. */
  ghost predicate RefinesRank<T(!new)>(first: (T, T) -> bool, final: (T, T) -> bool, rank: T -> nat) {
    StrictWeakOrder(first) && StrictWeakOrder(final)
    && (forall x, y :: final(x, y) <==> rank(x) < rank(y))
    && (forall x, y :: rank(x) < rank(y) ==> first(x, y))
  }

  lemma ComparisonsAgree()
    ensures RefinesRank(OutLessFirst, OutLessFinal, OutRank)
    ensures RefinesRank(InLessFirst, InLessFinal, InRank)
  {
  }

  /** The index of the first element that is not a ring one, or the length. */
  function FirstPseudonym<T>(s: seq<T>, rank: T -> nat): (i: nat)
    ensures i <= |s|
    ensures forall k :: 0 <= k < i ==> rank(s[k]) == 0
    ensures i < |s| ==> rank(s[i]) > 0
  {
    if s == [] || rank(s[0]) > 0 then 0 else 1 + FirstPseudonym(s[1..], rank)
  }

  function InsertAll<T>(s: seq<T>, start: nat, block: seq<T>): seq<T>
    requires start <= |s|
  {
    s[..start] + block + s[start..]
  }

  ghost predicate Ascending<T>(rank: T -> nat, s: seq<T>) {
    forall i, j :: 0 <= i < j < |s| ==> rank(s[i]) <= rank(s[j])
  }

  lemma AscendingConcat<T(!new)>(rank: T -> nat, s: seq<T>, t: seq<T>, mid: nat)
    requires Ascending(rank, s) && Ascending(rank, t)
    requires forall k :: 0 <= k < |s| ==> rank(s[k]) <= mid
    requires forall k :: 0 <= k < |t| ==> mid <= rank(t[k])
    ensures Ascending(rank, s + t)
  {
  }

  lemma InsertedAscends<T(!new)>(rank: T -> nat, sorted: seq<T>, block: seq<T>)
    requires Ascending(rank, sorted)
    requires forall k :: 0 <= k < |block| ==> rank(block[k]) == 1
    ensures Ascending(rank, InsertAll(sorted, FirstPseudonym(sorted, rank), block))
  {
    var start := FirstPseudonym(sorted, rank);
    var head, tail := sorted[..start], sorted[start..];
    assert forall k :: 0 <= k < |head| ==> rank(head[k]) == 0;
    assert forall k :: 0 <= k < |tail| ==> rank(sorted[start]) <= rank(tail[k]);
    AscendingConcat(rank, head, block, 1);
    AscendingConcat(rank, head + block, tail, 1);
  }

  /** After the first sort the ranks ascend. */
  lemma SortedAscends<T(!new)>(first: (T, T) -> bool, final: (T, T) -> bool, rank: T -> nat, list: seq<T>)
    requires RefinesRank(first, final, rank)
    ensures Ascending(rank, Sorted(first, list))
    ensures multiset(Sorted(first, list)) == multiset(list)
  {
    var sorted := Sorted(first, list);
    SortedIsStable(first, list);
    forall i, j | 0 <= i < j < |sorted|
      ensures rank(sorted[i]) <= rank(sorted[j])
    {
      assert !first(sorted[j], sorted[i]);
    }
  }

  lemma AscendingIsOrdered<T(!new)>(final: (T, T) -> bool, rank: T -> nat, s: seq<T>)
    requires forall x, y :: final(x, y) <==> rank(x) < rank(y)
    requires Ascending(rank, s)
    ensures Ordered(final, s)
  {
  }

  lemma InsertAllHolds<T>(s: seq<T>, start: nat, block: seq<T>)
    requires start <= |s|
    ensures multiset(InsertAll(s, start, block)) == multiset(s) + multiset(block)
    ensures |InsertAll(s, start, block)| == |s| + |block|
    ensures InsertAll(s, start, block)[start..start + |block|] == block
  {
    assert s == s[..start] + s[start..];
  }

  /** MAIN RESULT. Whatever list is sorted first, inserting CT pseudonym coins at the first
      pseudonym position yields a list the second sort leaves unchanged. So the recorded
      start still delimits exactly the inserted block, in the order it was asked for. */
  lemma BlockSurvivesResort<T(!new)>(first: (T, T) -> bool, final: (T, T) -> bool, rank: T -> nat,
                                     list: seq<T>, block: seq<T>)
    requires RefinesRank(first, final, rank)
    requires forall k :: 0 <= k < |block| ==> rank(block[k]) == 1
    ensures var sorted := Sorted(first, list);
            var start := FirstPseudonym(sorted, rank);
            var laid := InsertAll(sorted, start, block);
            && Sorted(final, laid) == laid
            && Sorted(final, laid)[start..start + |block|] == block
            && multiset(laid) == multiset(list) + multiset(block)
  {
    hide Sorted, FirstPseudonym, InsertAll, Ascending, Ordered, StrictWeakOrder;
    var sorted := Sorted(first, list);
    var start := FirstPseudonym(sorted, rank);
    SortedAscends(first, final, rank, list);
    InsertedAscends(rank, sorted, block);
    InsertAllHolds(sorted, start, block);
    AscendingIsOrdered(final, rank, InsertAll(sorted, start, block));
    OrderedIsFixpoint(final, InsertAll(sorted, start, block));
  }

  // ----- the same steps in place -----

  method FindStart<T>(a: array<T>, rank: T -> nat) returns (start: nat)
    ensures start == FirstPseudonym(a[..], rank)
  {
    start := 0;
    while start < a.Length && rank(a[start]) == 0
      invariant start <= a.Length
      invariant FirstPseudonym(a[..], rank) == start + FirstPseudonym(a[start..], rank)
    {
      assert a[start..][1..] == a[start + 1..];
      start := start + 1;
    }
    assert start < a.Length ==> a[start..][0] == a[start];
  }

  method SortAndFindStart<T>(a: array<T>, first: (T, T) -> bool, rank: T -> nat) returns (start: nat)
    modifies a
    ensures a[..] == Sorted(first, old(a[..]))
    ensures start == FirstPseudonym(a[..], rank)
  {
    SliceStable(a, first);
    start := FindStart(a, rank);
  }

  /** A number as the script stores it, in one byte. */
  function Byte(n: nat): nat { n % 256 }

  /** How many elements are ring ones. */
  function RingCount<T>(s: seq<T>, rank: T -> nat): nat {
    if s == [] then 0 else RingCount(s[..|s| - 1], rank) + if rank(s[|s| - 1]) == 0 then 1 else 0
  }

  function RingInput(): Coin -> bool { (c: Coin) => !c.pseudonymous && !c.pseudonymousCT }

  /** Counted without a rank: the inputs with neither pseudonym bit. */
  lemma {:induction false} RingCoinsCounted(coins: seq<Coin>)
    ensures RingCount(coins, InRank) == CountOf(coins, RingInput())
  {
    if coins != [] {
      RingCoinsCounted(coins[..|coins| - 1]);
    }
  }

  lemma {:induction false} InsertCounts<T>(less: (T, T) -> bool, rank: T -> nat, s: seq<T>, x: T)
    ensures RingCount(Insert(less, s, x), rank) == RingCount(s, rank) + if rank(x) == 0 then 1 else 0
  {
    if s != [] && less(x, s[|s| - 1]) {
      InsertCounts(less, rank, s[..|s| - 1], x);
      var t := Insert(less, s, x);
      assert t[..|t| - 1] == Insert(less, s[..|s| - 1], x);
    } else {
      assert (s + [x])[..|s|] == s;
    }
  }

  lemma {:induction false} SortedCounts<T>(less: (T, T) -> bool, rank: T -> nat, s: seq<T>)
    ensures RingCount(Sorted(less, s), rank) == RingCount(s, rank)
  {
    if s != [] {
      SortedCounts(less, rank, s[..|s| - 1]);
      InsertCounts(less, rank, Sorted(less, s[..|s| - 1]), s[|s| - 1]);
    }
  }

  lemma {:induction false} AscendingCounts<T(!new)>(rank: T -> nat, s: seq<T>)
    requires Ascending(rank, s)
    ensures RingCount(s, rank) <= |s|
    ensures forall k :: 0 <= k < |s| ==> (rank(s[k]) == 0 <==> k < RingCount(s, rank))
  {
    if s != [] {
      var init := s[..|s| - 1];
      AscendingCounts(rank, init);
      forall k | 0 <= k < |s|
        ensures rank(s[k]) == 0 <==> k < RingCount(s, rank)
      {
        if k < |init| {
          assert init[k] == s[k] && rank(s[k]) <= rank(s[|init|]);
        }
        if |init| > 0 {
          assert init[|init| - 1] == s[|init| - 1] && rank(s[|init| - 1]) <= rank(s[|init|]);
        }
      }
    }
  }

  lemma FirstIsCount<T(!new)>(s: seq<T>, rank: T -> nat)
    requires Ascending(rank, s)
    ensures FirstPseudonym(s, rank) == RingCount(s, rank)
  {
    AscendingCounts(rank, s);
    var i, n := FirstPseudonym(s, rank), RingCount(s, rank);
    assert i < |s| ==> rank(s[i]) > 0;
    assert n < |s| ==> rank(s[n]) > 0;
  }

  /** The start found after the first sort is the number of ring elements of the given list. */
  lemma StartIsRingCount<T(!new)>(first: (T, T) -> bool, final: (T, T) -> bool, rank: T -> nat, list: seq<T>)
    requires RefinesRank(first, final, rank)
    ensures FirstPseudonym(Sorted(first, list), rank) == RingCount(list, rank)
  {
    hide RefinesRank, Sorted;
    SortedAscends(first, final, rank, list);
    SortedCounts(first, rank, list);
    FirstIsCount(Sorted(first, list), rank);
  }

  /** The block sits at `start`. */
  ghost predicate SitsAt<T>(laid: seq<T>, block: seq<T>, start: nat) {
    start + |block| <= |laid| && laid[start..start + |block|] == block
  }

  /** First sort, start, insertion, and the start as recorded. What comes out is already in the
      order of the builder's sort. */
  method LayOut<T(!new)>(a: array<T>, block: seq<T>, first: (T, T) -> bool, final: (T, T) -> bool, rank: T -> nat)
      returns (laid: array<T>, recordedStart: nat)
    requires RefinesRank(first, final, rank)
    requires forall k :: 0 <= k < |block| ==> rank(block[k]) == 1
    modifies a
    ensures fresh(laid)
    ensures multiset(laid[..]) == multiset(old(a[..])) + multiset(block)
    ensures Sorted(final, laid[..]) == laid[..]
    ensures SitsAt(laid[..], block, RingCount(old(a[..]), rank))
    ensures recordedStart == Byte(RingCount(old(a[..]), rank))
  {
    hide Sorted, FirstPseudonym, RefinesRank, Byte;
    BlockSurvivesResort(first, final, rank, a[..], block);
    StartIsRingCount(first, final, rank, a[..]);
    ghost var sorted := Sorted(first, a[..]);
    var at := SortAndFindStart(a, first, rank);
    var list := a[..at] + block + a[at..];
    InsertAllHolds(sorted, at, block);
    laid := new T[|list|](i requires 0 <= i < |list| => list[i]);
    recordedStart := Byte(at);
    assert laid[..] == list;
  }

  method LayOutOutputs(outs: array<OutDesc>, tokens: seq<OutDesc>) returns (laid: array<OutDesc>, recordedStart: nat)
    requires forall k :: 0 <= k < |tokens| ==> tokens[k].level.PseudonymCT?
    modifies outs
    ensures fresh(laid)
    ensures multiset(laid[..]) == multiset(old(outs[..])) + multiset(tokens)
    ensures Sorted(OutLessFinal, laid[..]) == laid[..]
    ensures SitsAt(laid[..], tokens, RingCount(old(outs[..]), OutRank))
    ensures recordedStart == Byte(RingCount(old(outs[..]), OutRank))
  {
    ComparisonsAgree();
    laid, recordedStart := LayOut(outs, tokens, OutLessFirst, OutLessFinal, OutRank);
  }

  method LayOutInputs(ins: array<Coin>, tokens: seq<Coin>) returns (laid: array<Coin>, recordedStart: nat)
    requires forall k :: 0 <= k < |tokens| ==> tokens[k].pseudonymousCT
    modifies ins
    ensures fresh(laid)
    ensures multiset(laid[..]) == multiset(old(ins[..])) + multiset(tokens)
    ensures Sorted(InLessFinal, laid[..]) == laid[..]
    ensures SitsAt(laid[..], tokens, RingCount(old(ins[..]), InRank))
    ensures recordedStart == Byte(RingCount(old(ins[..]), InRank))
  {
    ComparisonsAgree();
    laid, recordedStart := LayOut(ins, tokens, InLessFirst, InLessFinal, InRank);
  }
}
