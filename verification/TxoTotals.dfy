/** What the operations of the transaction store keep: totals and buckets agree, and where they
    drift apart, by how much. */
module TxoTotals {
  import opened Wrappers
  import opened Coins
  import opened TxoBuckets

  // ----- sums over a bucket -----

  ghost function Sum(w: map<OutPoint, nat>): nat {
    if w == map[] then 0
    else
      var o :| o in w;
      w[o] + Sum(w - {o})
  }

  lemma {:induction false} SumWithout(w: map<OutPoint, nat>, o: OutPoint)
    requires o in w
    ensures Sum(w) == w[o] + Sum(w - {o})
    decreases |w|
  {
    var p :| p in w && Sum(w) == w[p] + Sum(w - {p});
    if p != o {
      SumWithout(w - {p}, o);
      SumWithout(w - {o}, p);
      assert w - {p} - {o} == w - {o} - {p};
    }
  }

  /** What one coin adds to a measure: its amount in ABEL, 1 for a root of the token, or its
      amount of the token. */
  function Worth(m: Measure, coin: Coin, tokens: map<OutPoint, Token>, o: OutPoint): nat {
    match m
    case Abel => coin.amount
    case Roots(id) => if coin.ctaut && o in tokens && tokens[o].root && tokens[o].id == id then 1 else 0
    case Amount(id) => if coin.ctaut && o in tokens && !tokens[o].root && tokens[o].id == id then tokens[o].value else 0
  }

  /** That is what the operations put on or take off the stored totals. */
  lemma WorthIsWeight(m: Measure, coin: Coin, tokens: map<OutPoint, Token>, o: OutPoint)
    ensures Worth(m, coin, tokens, o) == Weight(m, coin, TokenAt(coin, tokens, o))
  {
  }

  function Weights(m: Measure, coins: map<OutPoint, Coin>, tokens: map<OutPoint, Token>): map<OutPoint, nat> {
    map o | o in coins :: Worth(m, coins[o], tokens, o)
  }

  ghost function Held(m: Measure, coins: map<OutPoint, Coin>, tokens: map<OutPoint, Token>): nat {
    Sum(Weights(m, coins, tokens))
  }

  lemma HeldWithout(m: Measure, coins: map<OutPoint, Coin>, tokens: map<OutPoint, Token>, o: OutPoint)
    requires o in coins
    ensures Held(m, coins, tokens)
            == Weight(m, coins[o], TokenAt(coins[o], tokens, o)) + Held(m, coins - {o}, tokens)
  {
    WorthIsWeight(m, coins[o], tokens, o);
    SumWithout(Weights(m, coins, tokens), o);
    assert Weights(m, coins, tokens) - {o} == Weights(m, coins - {o}, tokens);
  }

  lemma HeldWith(m: Measure, coins: map<OutPoint, Coin>, tokens: map<OutPoint, Token>, o: OutPoint, coin: Coin)
    requires o !in coins
    ensures Held(m, coins[o := coin], tokens)
            == Weight(m, coin, TokenAt(coin, tokens, o)) + Held(m, coins, tokens)
  {
    HeldWithout(m, coins[o := coin], tokens, o);
    assert coins[o := coin] - {o} == coins;
  }

  // ----- what is to be kept -----

  function CoinsOf(u: map<OutPoint, Unconfirmed>): map<OutPoint, Coin> {
    map o | o in u :: u[o].coin
  }

  ghost predicate MinedAt(s: Store, m: Measure) {
    At(s.mined, m) == Held(m, s.immature, s.tokens) + Held(m, s.matured, s.tokens) + Held(m, CoinsOf(s.unmined), s.tokens)
  }

  /** Every coin is in one bucket, every token coin has its token entry, and the mined totals
      are those of the immature, matured and spent-but-unmined coins. */
  ghost predicate Consistent(s: Store) {
    s.immature.Keys !! s.matured.Keys !! s.unmined.Keys !! s.confirmed.Keys
    && (forall o <- s.matured :: s.matured[o].ctaut ==> o in s.tokens)
    && (forall o <- s.unmined :: s.unmined[o].coin.ctaut ==> o in s.tokens)
    && forall m :: MinedAt(s, m)
  }

  ghost predicate SpendableExact(s: Store) {
    forall m :: At(s.spendable, m) == Held(m, s.matured, s.tokens)
  }

  ghost predicate UnconfirmedExact(s: Store) {
    forall m :: At(s.unconfirmed, m) == Held(m, CoinsOf(s.unmined), s.tokens)
  }

  // ----- how far a stored total is off -----

  /** What the stored spendable total falls short of the matured coins, and what the stored
      unconfirmed total exceeds the spent but unmined coins by, modulo 2^64. */
  ghost function Short(s: Store, m: Measure): nat {
    Wrap(Held(m, s.matured, s.tokens) - At(s.spendable, m))
  }

  ghost function Over(s: Store, m: Measure): nat {
    Wrap(At(s.unconfirmed, m) - Held(m, CoinsOf(s.unmined), s.tokens))
  }

  ghost predicate SameDrift(s: Store, s': Store) {
    forall m :: Short(s', m) == Short(s, m) && Over(s', m) == Over(s, m)
  }

  /** With the mined totals exact, being off by 0 modulo 2^64 is being exact. */
  lemma ExactMeansNoDrift(s: Store, m: Measure)
    requires MinedAt(s, m)
    ensures At(s.spendable, m) == Held(m, s.matured, s.tokens) <==> Short(s, m) == 0
    ensures At(s.unconfirmed, m) == Held(m, CoinsOf(s.unmined), s.tokens) <==> Over(s, m) == 0
  {
  }

  lemma ExactIffNoDrift(s: Store)
    requires Consistent(s)
    ensures SpendableExact(s) <==> forall m :: Short(s, m) == 0
    ensures UnconfirmedExact(s) <==> forall m :: Over(s, m) == 0
  {
    forall m
      ensures At(s.spendable, m) == Held(m, s.matured, s.tokens) <==> Short(s, m) == 0
      ensures At(s.unconfirmed, m) == Held(m, CoinsOf(s.unmined), s.tokens) <==> Over(s, m) == 0
    {
      assert MinedAt(s, m);
      ExactMeansNoDrift(s, m);
    }
  }

  lemma SameDriftKeepsExact(s: Store, s': Store)
    requires Consistent(s) && Consistent(s') && SameDrift(s, s')
    ensures SpendableExact(s') <==> SpendableExact(s)
    ensures UnconfirmedExact(s') <==> UnconfirmedExact(s)
  {
    ExactIffNoDrift(s);
    ExactIffNoDrift(s');
    assert forall m :: Short(s', m) == Short(s, m) && Over(s', m) == Over(s, m);
  }

  // ----- what one operation does to the totals -----

  lemma MinusWraps(t: Totals, coin: Coin, token: Option<Token>, m: Measure)
    ensures At(Minus(t, coin, token), m) == Wrap(At(t, m) - Weight(m, coin, token))
  {
  }

  lemma PlusWraps(t: Totals, coin: Coin, token: Option<Token>, m: Measure)
    ensures At(Plus(t, coin, token), m) == Wrap(At(t, m) + Weight(m, coin, token))
  {
  }

  /** Moving a sum and its stored total by the same amount, modulo 2^64. */
  lemma FallTogether(sum: int, total: int, sum': int, total': int, w: int)
    requires sum' == sum - w && total' == Wrap(total - w)
    ensures Wrap(sum' - total') == Wrap(sum - total)
  {
  }

  lemma RiseTogether(sum: int, total: int, sum': int, total': int, w: int)
    requires sum' == sum + w && total' == Wrap(total + w)
    ensures Wrap(total' - sum') == Wrap(total - sum)
  {
  }

  lemma MaturedConfirmed(s: Store, o: OutPoint, spentBy: nat, confirmedBy: nat, m: Measure)
    requires o in s.matured && (s.matured[o].ctaut ==> o in s.tokens)
    ensures Confirm(s, o, spentBy, confirmedBy).Done?
    ensures var s' := Confirm(s, o, spentBy, confirmedBy).store;
            var w := Weight(m, s.matured[o], TokenAt(s.matured[o], s.tokens, o));
            && w <= Held(m, s.matured, s.tokens)
            && Held(m, s'.matured, s'.tokens) == Held(m, s.matured, s.tokens) - w
            && Held(m, s'.immature, s'.tokens) == Held(m, s.immature, s.tokens)
            && Held(m, CoinsOf(s'.unmined), s'.tokens) == Held(m, CoinsOf(s.unmined), s.tokens)
            && At(s'.mined, m) == Wrap(At(s.mined, m) - w) && At(s'.spendable, m) == Wrap(At(s.spendable, m) - w)
            && s'.unconfirmed == s.unconfirmed
  {
    hide Held, Weight, Minus, At, Wrap;
    var token := TokenAt(s.matured[o], s.tokens, o);
    HeldWithout(m, s.matured, s.tokens, o);
    MinusWraps(s.mined, s.matured[o], token, m);
    MinusWraps(s.spendable, s.matured[o], token, m);
  }

  lemma ConfirmMoves(s: Store, o: OutPoint, spentBy: nat, confirmedBy: nat, m: Measure)
    requires MinedAt(s, m) && o in s.matured && (s.matured[o].ctaut ==> o in s.tokens)
    ensures var s' := Confirm(s, o, spentBy, confirmedBy).store;
            && Weight(m, s.matured[o], TokenAt(s.matured[o], s.tokens, o)) <= At(s.mined, m)
            && MinedAt(s', m) && Short(s', m) == Short(s, m) && Over(s', m) == Over(s, m)
  {
    hide Held, Weight, At, Wrap, TokenAt, Confirm;
    MaturedConfirmed(s, o, spentBy, confirmedBy, m);
    var s' := Confirm(s, o, spentBy, confirmedBy).store;
    var w := Weight(m, s.matured[o], TokenAt(s.matured[o], s.tokens, o));
    FallTogether(Held(m, s.matured, s.tokens), At(s.spendable, m), Held(m, s'.matured, s'.tokens), At(s'.spendable, m), w);
    WrapSmall(At(s.mined, m) - w);
  }

  lemma WrapSmall(x: int)
    requires x < 0x1_0000_0000_0000_0000
    ensures 0 <= x ==> Wrap(x) == x
    ensures -0x1_0000_0000_0000_0000 <= x < 0 ==> Wrap(x) == x + 0x1_0000_0000_0000_0000
  {
  }

  /** MAIN RESULT on confirmation. Whatever the spendable and unconfirmed totals are, confirming
      a matured output keeps the mined totals exact without underflow and the buckets
      disjoint, and the other totals as far off as they were: exact if they were exact, and
      then they do not underflow either. It is safe exactly for matured outputs. */
  lemma ConfirmKeepsTotals(s: Store, o: OutPoint, spentBy: nat, confirmedBy: nat)
    requires Consistent(s)
    ensures Confirm(s, o, spentBy, confirmedBy).Done? <==> o in s.matured
    ensures !Confirm(s, o, spentBy, confirmedBy).Done? ==> Confirm(s, o, spentBy, confirmedBy).Panicked?
    ensures o in s.matured ==>
              var s' := Confirm(s, o, spentBy, confirmedBy).store;
              && Consistent(s') && SameDrift(s, s')
              && (SpendableExact(s') <==> SpendableExact(s)) && (UnconfirmedExact(s') <==> UnconfirmedExact(s))
              && (forall m :: Weight(m, s.matured[o], TokenAt(s.matured[o], s.tokens, o)) <= At(s.mined, m))
              && (SpendableExact(s) ==>
                    forall m :: Weight(m, s.matured[o], TokenAt(s.matured[o], s.tokens, o)) <= At(s.spendable, m))
              && o in s'.confirmed && o !in s'.matured
  {
    if o in s.matured {
      var s' := Confirm(s, o, spentBy, confirmedBy).store;
      forall m
        ensures Weight(m, s.matured[o], TokenAt(s.matured[o], s.tokens, o)) <= At(s.mined, m)
        ensures Weight(m, s.matured[o], TokenAt(s.matured[o], s.tokens, o)) <= Held(m, s.matured, s.tokens)
        ensures MinedAt(s', m) && Short(s', m) == Short(s, m) && Over(s', m) == Over(s, m)
      {
        assert MinedAt(s, m);
        ConfirmMoves(s, o, spentBy, confirmedBy, m);
        HeldWithout(m, s.matured, s.tokens, o);
      }
      assert Consistent(s') && SameDrift(s, s');
      SameDriftKeepsExact(s, s');
    }
  }

  lemma CoinsOfWith(u: map<OutPoint, Unconfirmed>, o: OutPoint, spent: Unconfirmed)
    ensures CoinsOf(u[o := spent]) == CoinsOf(u)[o := spent.coin]
    ensures CoinsOf(u - {o}) == CoinsOf(u) - {o}
  {
  }

  /** A coin on its way from matured to spent but unmined. */
  ghost predicate MovesOut(s: Store, s': Store, o: OutPoint, txHash: nat) {
    o in s.matured && o !in s.unmined
    && s'.matured == s.matured - {o} && s'.unmined == s.unmined[o := Unconfirmed(s.matured[o], txHash)]
    && s'.mined == s.mined && s'.immature == s.immature && s'.tokens == s.tokens
    && s'.spendable == Minus(s.spendable, s.matured[o], TokenAt(s.matured[o], s.tokens, o))
    && s'.unconfirmed == Plus(s.unconfirmed, s.matured[o], TokenAt(s.matured[o], s.tokens, o))
  }

  lemma MoveOutTotals(s: Store, s': Store, o: OutPoint, txHash: nat, m: Measure)
    requires MovesOut(s, s', o, txHash) && MinedAt(s, m)
    ensures MinedAt(s', m) && Short(s', m) == Short(s, m) && Over(s', m) == Over(s, m)
  {
    hide Held, At, Weight, CoinsOf, TokenAt, Wrap;
    MaturedFalls(s, s', o, txHash, m);
    UnminedRises(s, s', o, txHash, m);
    var w := Weight(m, s.matured[o], TokenAt(s.matured[o], s.tokens, o));
    FallTogether(Held(m, s.matured, s.tokens), At(s.spendable, m), Held(m, s'.matured, s'.tokens), At(s'.spendable, m), w);
    RiseTogether(Held(m, CoinsOf(s.unmined), s.tokens), At(s.unconfirmed, m), Held(m, CoinsOf(s'.unmined), s'.tokens), At(s'.unconfirmed, m), w);
  }

  lemma MaturedFalls(s: Store, s': Store, o: OutPoint, txHash: nat, m: Measure)
    requires MovesOut(s, s', o, txHash)
    ensures var w := Weight(m, s.matured[o], TokenAt(s.matured[o], s.tokens, o));
            && Held(m, s'.matured, s'.tokens) == Held(m, s.matured, s.tokens) - w
            && At(s'.spendable, m) == Wrap(At(s.spendable, m) - w)
            && s'.mined == s.mined && Held(m, s'.immature, s'.tokens) == Held(m, s.immature, s.tokens)
  {
    hide Held, Weight, Minus, At;
    HeldWithout(m, s.matured, s.tokens, o);
    MinusWraps(s.spendable, s.matured[o], TokenAt(s.matured[o], s.tokens, o), m);
  }

  lemma UnminedRises(s: Store, s': Store, o: OutPoint, txHash: nat, m: Measure)
    requires MovesOut(s, s', o, txHash)
    ensures var w := Weight(m, s.matured[o], TokenAt(s.matured[o], s.tokens, o));
            && Held(m, CoinsOf(s'.unmined), s'.tokens) == Held(m, CoinsOf(s.unmined), s.tokens) + w
            && At(s'.unconfirmed, m) == Wrap(At(s.unconfirmed, m) + w)
  {
    hide Held, Weight, Plus, At;
    CoinsOfWith(s.unmined, o, Unconfirmed(s.matured[o], txHash));
    HeldWith(m, CoinsOf(s.unmined), s.tokens, o, s.matured[o]);
    PlusWraps(s.unconfirmed, s.matured[o], TokenAt(s.matured[o], s.tokens, o), m);
  }

  lemma InsertMoves(s: Store, input: Input, txHash: nat, m: Measure)
    requires ValidRings(s.rings) && InsertInput(s, input, txHash).Done? && Consistent(s)
    ensures var s' := InsertInput(s, input, txHash).store;
            MinedAt(s', m) && Short(s', m) == Short(s, m) && Over(s', m) == Over(s, m)
  {
    hide Held, Weight, Minus, Plus, At, Settled, Noted;
    assert MinedAt(s, m);
    var spent := Spent(s.rings, input);
    if spent.Some? {
      MoveOutTotals(s, InsertInput(s, input, txHash).store, spent.value, txHash, m);
    }
  }

  lemma InsertInputKeeps(s: Store, input: Input, txHash: nat)
    requires ValidRings(s.rings) && InsertInput(s, input, txHash).Done? && Consistent(s)
    ensures var s' := InsertInput(s, input, txHash).store; Consistent(s') && SameDrift(s, s')
  {
    var s' := InsertInput(s, input, txHash).store;
    forall m
      ensures MinedAt(s', m) && Short(s', m) == Short(s, m) && Over(s', m) == Over(s, m)
    {
      InsertMoves(s, input, txHash, m);
    }
    assert forall m :: MinedAt(s', m);
  }

  /** MAIN RESULT on a new transaction of the wallet. It keeps the mined totals exact and the
      buckets disjoint, and the other totals as far off as they were. */
  lemma {:induction false} InsertKeepsTotals(s: Store, inputs: seq<Input>, txHash: nat)
    requires ValidRings(s.rings) && InsertInputs(s, inputs, txHash).Done? && Consistent(s)
    ensures var s' := InsertInputs(s, inputs, txHash).store;
            && Consistent(s') && SameDrift(s, s')
            && (SpendableExact(s') <==> SpendableExact(s)) && (UnconfirmedExact(s') <==> UnconfirmedExact(s))
    decreases |inputs|
  {
    if inputs != [] {
      var init, last := inputs[..|inputs| - 1], inputs[|inputs| - 1];
      InsertKeepsTotals(s, init, txHash);
      var mid := InsertInputs(s, init, txHash).store;
      InsertInputKeeps(mid, last, txHash);
      var s' := InsertInputs(s, inputs, txHash).store;
      assert SameDrift(s, s') by {
        forall m
          ensures Short(s', m) == Short(s, m) && Over(s', m) == Over(s, m)
        {
          assert Short(mid, m) == Short(s, m) && Over(mid, m) == Over(s, m);
        }
      }
      SameDriftKeepsExact(s, s');
    }
  }

  // ----- giving a transaction up -----

  lemma DeleteInputKeys(s: Store, input: Input)
    requires ValidRings(s.rings) && s.matured.Keys !! s.unmined.Keys
    ensures var s' := DeleteInput(s, input);
            && s'.matured.Keys + s'.unmined.Keys == s.matured.Keys + s.unmined.Keys
            && s'.matured.Keys !! s'.unmined.Keys
  {
  }

  lemma DeleteMoves(s: Store, input: Input, m: Measure)
    requires ValidRings(s.rings) && s.matured.Keys !! s.unmined.Keys
    ensures var s' := DeleteInput(s, input);
            Held(m, s'.matured, s'.tokens) + Held(m, CoinsOf(s'.unmined), s'.tokens)
            == Held(m, s.matured, s.tokens) + Held(m, CoinsOf(s.unmined), s.tokens)
  {
    hide Held, Weight;
    var spent := Spent(s.rings, input);
    if spent.Some? && spent.value in s.unmined {
      var o := spent.value;
      CoinsOfWith(s.unmined, o, s.unmined[o]);
      HeldWithout(m, CoinsOf(s.unmined), s.tokens, o);
      HeldWith(m, s.matured, s.tokens, o, s.unmined[o].coin);
    }
  }

  /** Coins moved between the matured and the unmined bucket only, and no total changed. */
  ghost predicate OnlyMoved(s: Store, s': Store) {
    s'.mined == s.mined && s'.spendable == s.spendable && s'.unconfirmed == s.unconfirmed
    && s'.immature == s.immature && s'.confirmed == s.confirmed && s'.tokens == s.tokens && s'.rings == s.rings
    && forall m :: Held(m, s'.matured, s'.tokens) + Held(m, CoinsOf(s'.unmined), s'.tokens)
                   == Held(m, s.matured, s.tokens) + Held(m, CoinsOf(s.unmined), s.tokens)
  }

  lemma DeleteInputMoves(s: Store, input: Input)
    requires ValidRings(s.rings) && Consistent(s)
    ensures OnlyMoved(s, DeleteInput(s, input)) && Consistent(DeleteInput(s, input))
  {
    var s' := DeleteInput(s, input);
    DeleteInputKeys(s, input);
    forall m
      ensures Held(m, s'.matured, s'.tokens) + Held(m, CoinsOf(s'.unmined), s'.tokens)
           == Held(m, s.matured, s.tokens) + Held(m, CoinsOf(s.unmined), s.tokens)
      ensures MinedAt(s', m)
    {
      assert MinedAt(s, m);
      DeleteMoves(s, input, m);
    }
    assert OnlyMoved(s, s');
  }

  /** MAIN RESULT on giving a transaction up. Deleting it keeps the mined totals exact and the
      buckets disjoint and changes no stored total; what comes back to the matured bucket is
      what leaves the unmined one. */
  lemma {:induction false} DeleteKeepsMined(s: Store, inputs: seq<Input>)
    requires ValidRings(s.rings) && Consistent(s)
    ensures OnlyMoved(s, DeleteInputs(s, inputs)) && Consistent(DeleteInputs(s, inputs))
  {
    if inputs != [] {
      var init, last := inputs[..|inputs| - 1], inputs[|inputs| - 1];
      DeleteKeepsMined(s, init);
      DeleteInputMoves(DeleteInputs(s, init), last);
    }
  }

  // ----- which coins a transaction moves -----

  /** The wallet's outputs a list of inputs spends. */
  ghost function SpentSet(rings: map<nat, Ring>, inputs: seq<Input>): set<OutPoint>
    requires ValidRings(rings)
  {
    if inputs == [] then {}
    else
      SpentSet(rings, inputs[..|inputs| - 1])
      + SpentBy(rings, inputs[|inputs| - 1])
  }

  ghost function SpentBy(rings: map<nat, Ring>, input: Input): set<OutPoint>
    requires ValidRings(rings)
  {
    match Spent(rings, input) case None => {} case Some(o) => {o}
  }

  /** The unmined entries of matured coins once a transaction spends them. */
  function Marked(matured: map<OutPoint, Coin>, moved: set<OutPoint>, txHash: nat): map<OutPoint, Unconfirmed> {
    map o | o in matured && o in moved :: Unconfirmed(matured[o], txHash)
  }

  function Unmarked(unmined: map<OutPoint, Unconfirmed>, back: set<OutPoint>): map<OutPoint, Coin> {
    map o | o in unmined && o in back :: unmined[o].coin
  }

  ghost predicate MovedOut(s: Store, s': Store, moved: set<OutPoint>, txHash: nat) {
    moved <= s.matured.Keys
    && s'.matured == s.matured - moved
    && s'.unmined == s.unmined + Marked(s.matured, moved, txHash)
    && s'.mined == s.mined && s'.immature == s.immature && s'.confirmed == s.confirmed && s'.tokens == s.tokens
  }

  ghost predicate MovedBack(s: Store, s': Store, back: set<OutPoint>) {
    s'.unmined == s.unmined - back
    && s'.matured == s.matured + Unmarked(s.unmined, back)
    && s'.mined == s.mined && s'.spendable == s.spendable
  }

  lemma MoveOneOut(s: Store, s': Store, moved: set<OutPoint>, txHash: nat, o: OutPoint)
    requires MovedOut(s, s', moved, txHash) && o in s'.matured
    ensures s'.matured - {o} == s.matured - (moved + {o})
    ensures s'.unmined[o := Unconfirmed(s'.matured[o], txHash)] == s.unmined + Marked(s.matured, moved + {o}, txHash)
  {
  }

  lemma MoveOneBack(s: Store, s': Store, back: set<OutPoint>, o: OutPoint)
    requires MovedBack(s, s', back)
    ensures o in s'.unmined ==>
              s'.unmined - {o} == s.unmined - (back + {o})
              && s'.matured[o := s'.unmined[o].coin] == s.matured + Unmarked(s.unmined, back + {o})
    ensures o !in s'.unmined ==>
              s.unmined - (back + {o}) == s.unmined - back
              && Unmarked(s.unmined, back + {o}) == Unmarked(s.unmined, back)
  {
  }

  lemma {:induction false} InsertedBuckets(s: Store, inputs: seq<Input>, txHash: nat)
    requires ValidRings(s.rings) && InsertInputs(s, inputs, txHash).Done?
    ensures MovedOut(s, InsertInputs(s, inputs, txHash).store, SpentSet(s.rings, inputs), txHash)
  {
    if inputs == [] {
      assert s.matured - {} == s.matured && s.unmined + Marked(s.matured, {}, txHash) == s.unmined;
    } else {
      var init, last := inputs[..|inputs| - 1], inputs[|inputs| - 1];
      InsertedBuckets(s, init, txHash);
      var mid := InsertInputs(s, init, txHash).store;
      match Spent(s.rings, last) {
        case None => assert SpentSet(s.rings, inputs) == SpentSet(s.rings, init);
        case Some(o) => MoveOneOut(s, mid, SpentSet(s.rings, init), txHash, o);
      }
    }
  }

  lemma {:induction false} DeletedBuckets(s: Store, inputs: seq<Input>)
    requires ValidRings(s.rings)
    ensures MovedBack(s, DeleteInputs(s, inputs), SpentSet(s.rings, inputs))
  {
    if inputs == [] {
      assert s.unmined - {} == s.unmined && s.matured + Unmarked(s.unmined, {}) == s.matured;
    } else {
      var init, last := inputs[..|inputs| - 1], inputs[|inputs| - 1];
      DeletedBuckets(s, init);
      var mid := DeleteInputs(s, init);
      match Spent(s.rings, last) {
        case None => assert SpentSet(s.rings, inputs) == SpentSet(s.rings, init);
        case Some(o) => MoveOneBack(s, mid, SpentSet(s.rings, init), o);
      }
    }
  }

  // ----- what a deletion does to the totals that are not touched -----

  /** The coins that come back when a transaction with these inputs is given up. */
  ghost function ComesBack(s: Store, inputs: seq<Input>): map<OutPoint, Unconfirmed>
    requires ValidRings(s.rings)
  {
    Among(s.unmined, SpentSet(s.rings, inputs))
  }

  ghost function Among(u: map<OutPoint, Unconfirmed>, back: set<OutPoint>): map<OutPoint, Unconfirmed> {
    map o | o in u && o in back :: u[o]
  }

  lemma {:induction false} SumSplit(w: map<OutPoint, nat>, back: set<OutPoint>)
    ensures Sum(w) == Sum(w - back) + Sum(map o | o in w && o in back :: w[o])
    decreases |back|
  {
    if back == {} {
      assert w - back == w && (map o | o in w && o in back :: w[o]) == map[];
    } else {
      var o :| o in back;
      SumSplit(w, back - {o});
      var rest := w - (back - {o});
      var some := map p | p in w && p in back :: w[p];
      var fewer := map p | p in w && p in back - {o} :: w[p];
      assert w - back == rest - {o};
      if o in w {
        SumWithout(rest, o);
        SumWithout(some, o);
        assert some - {o} == fewer;
      } else {
        assert rest - {o} == rest && some == fewer;
      }
    }
  }

  lemma HeldSplit(m: Measure, u: map<OutPoint, Unconfirmed>, tokens: map<OutPoint, Token>, back: set<OutPoint>)
    ensures Held(m, CoinsOf(u), tokens) == Held(m, CoinsOf(u - back), tokens) + Held(m, CoinsOf(Among(u, back)), tokens)
  {
    SumSplit(Weights(m, CoinsOf(u), tokens), back);
    WeightsSplit(m, u, tokens, back);
  }

  lemma WeightsSplit(m: Measure, u: map<OutPoint, Unconfirmed>, tokens: map<OutPoint, Token>, back: set<OutPoint>)
    ensures Weights(m, CoinsOf(u - back), tokens) == Weights(m, CoinsOf(u), tokens) - back
    ensures Weights(m, CoinsOf(Among(u, back)), tokens)
         == map o | o in Weights(m, CoinsOf(u), tokens) && o in back :: Weights(m, CoinsOf(u), tokens)[o]
  {
    hide Weight;
  }

  lemma DriftBy(x: int, y: int, back: int)
    ensures Wrap((x + back) - y) == Wrap(Wrap(x - y) + back)
    ensures Wrap(x - (y - back)) == Wrap(Wrap(x - y) + back)
  {
  }

  /** Both totals drift by exactly the weight of what comes back. */
  lemma DeleteDrifts(s: Store, inputs: seq<Input>, m: Measure)
    requires ValidRings(s.rings) && Consistent(s)
    ensures var s' := DeleteInputs(s, inputs);
            var back := Held(m, CoinsOf(ComesBack(s, inputs)), s.tokens);
            && Held(m, s'.matured, s.tokens) == Held(m, s.matured, s.tokens) + back
            && Held(m, CoinsOf(s'.unmined), s.tokens) == Held(m, CoinsOf(s.unmined), s.tokens) - back
            && Short(s', m) == Wrap(Short(s, m) + back) && Over(s', m) == Wrap(Over(s, m) + back)
  {
    hide Held, At, Consistent, DeleteInputs, SpentSet, Wrap, CoinsOf, Among;
    var s' := DeleteInputs(s, inputs);
    DeleteKeepsMined(s, inputs);
    CoinsComeBack(s, inputs, m);
    var back := Held(m, CoinsOf(ComesBack(s, inputs)), s.tokens);
    DriftBy(Held(m, s.matured, s.tokens), At(s.spendable, m), back);
    DriftBy(At(s.unconfirmed, m), Held(m, CoinsOf(s.unmined), s.tokens), back);
  }

  lemma CoinsComeBack(s: Store, inputs: seq<Input>, m: Measure)
    requires ValidRings(s.rings)
    ensures Held(m, CoinsOf(DeleteInputs(s, inputs).unmined), s.tokens)
         == Held(m, CoinsOf(s.unmined), s.tokens) - Held(m, CoinsOf(ComesBack(s, inputs)), s.tokens)
  {
    hide Held, CoinsOf, Among, SpentSet;
    DeletedBuckets(s, inputs);
    HeldSplit(m, s.unmined, s.tokens, SpentSet(s.rings, inputs));
  }

  /** Worth nothing in ABEL and no part of a token. */
  predicate Weightless(coin: Coin, token: Option<Token>) {
    coin.amount == 0 && (token.None? || (!token.value.root && token.value.value == 0))
  }

  lemma WeightlessIff(coin: Coin, token: Option<Token>)
    ensures Weightless(coin, token) <==> forall m :: Weight(m, coin, token) == 0
  {
    if !Weightless(coin, token) {
      var m := if coin.amount != 0 then Abel
               else if token.value.root then Roots(token.value.id) else Amount(token.value.id);
      assert Weight(m, coin, token) != 0;
    }
  }

  ghost predicate NothingOfWorth(u: map<OutPoint, Unconfirmed>, tokens: map<OutPoint, Token>) {
    forall o <- u :: Weightless(u[o].coin, TokenAt(u[o].coin, tokens, o))
  }

  lemma {:induction false} SumZero(w: map<OutPoint, nat>)
    ensures Sum(w) == 0 <==> forall o <- w :: w[o] == 0
    decreases |w|
  {
    if w != map[] {
      var o :| o in w;
      SumWithout(w, o);
      SumZero(w - {o});
      assert forall p <- w :: p == o || p in w - {o};
    }
  }

  lemma WorthlessIff(u: map<OutPoint, Unconfirmed>, tokens: map<OutPoint, Token>)
    ensures NothingOfWorth(u, tokens) <==> forall m :: Held(m, CoinsOf(u), tokens) == 0
  {
    forall m
      ensures Held(m, CoinsOf(u), tokens) == 0
              <==> forall o <- u :: Weight(m, u[o].coin, TokenAt(u[o].coin, tokens, o)) == 0
    {
      HeldIsZero(m, u, tokens);
    }
    forall o | o in u {
      WeightlessIff(u[o].coin, TokenAt(u[o].coin, tokens, o));
    }
    if !NothingOfWorth(u, tokens) {
      var o :| o in u && !Weightless(u[o].coin, TokenAt(u[o].coin, tokens, o));
      var m :| Weight(m, u[o].coin, TokenAt(u[o].coin, tokens, o)) != 0;
      HeldIsZero(m, u, tokens);
      assert Held(m, CoinsOf(u), tokens) != 0;
    }
  }

  lemma HeldIsZero(m: Measure, u: map<OutPoint, Unconfirmed>, tokens: map<OutPoint, Token>)
    ensures Held(m, CoinsOf(u), tokens) == 0
            <==> forall o <- u :: Weight(m, u[o].coin, TokenAt(u[o].coin, tokens, o)) == 0
  {
    var w := Weights(m, CoinsOf(u), tokens);
    SumZero(w);
    assert forall o :: o in u <==> o in w;
    assert forall o <- u :: w[o] == Weight(m, u[o].coin, TokenAt(u[o].coin, tokens, o));
  }

  /** Since no total changes, the spendable totals stay exact exactly when every coin of the
      wallet that comes back is worth nothing; the unconfirmed totals likewise. */
  lemma ExactAfterDelete(s: Store, inputs: seq<Input>)
    requires ValidRings(s.rings) && Consistent(s)
    ensures SpendableExact(s) ==> (SpendableExact(DeleteInputs(s, inputs)) <==> NothingOfWorth(ComesBack(s, inputs), s.tokens))
    ensures UnconfirmedExact(s) ==> (UnconfirmedExact(DeleteInputs(s, inputs)) <==> NothingOfWorth(ComesBack(s, inputs), s.tokens))
  {
    hide Held, At, CoinsOf, ComesBack, DeleteInputs, NothingOfWorth;
    var s' := DeleteInputs(s, inputs);
    DeleteKeepsMined(s, inputs);
    WorthlessIff(ComesBack(s, inputs), s.tokens);
    forall m
      ensures var back := Held(m, CoinsOf(ComesBack(s, inputs)), s.tokens);
              && (SpendableExact(s) ==> (At(s'.spendable, m) == Held(m, s'.matured, s'.tokens) <==> back == 0))
              && (UnconfirmedExact(s) ==> (At(s'.unconfirmed, m) == Held(m, CoinsOf(s'.unmined), s'.tokens) <==> back == 0))
    {
      DeleteDrifts(s, inputs, m);
    }
  }

  // ----- every run -----

  datatype Op =
    | InsertOp(tx: Tx)
    | ConfirmOp(o: OutPoint, spentBy: nat, confirmedBy: nat)
    | DeleteOp(tx: Tx)

  /** One operation in its own database transaction: what does not succeed changes nothing. */
  ghost function Perform(s: Store, op: Op): Store
    requires ValidRings(s.rings)
  {
    match op
    case InsertOp(tx) => var r := Insert(s, tx); if r.Done? then r.store else s
    case ConfirmOp(o, spentBy, confirmedBy) => var r := Confirm(s, o, spentBy, confirmedBy); if r.Done? then r.store else s
    case DeleteOp(tx) => Delete(s, tx)
  }

  /** What one operation gives back to the matured bucket without any total saying so. */
  ghost function GivenBack(s: Store, op: Op, m: Measure): nat
    requires ValidRings(s.rings)
  {
    match op
    case DeleteOp(tx) => Held(m, CoinsOf(ComesBack(s, tx.inputs)), s.tokens)
    case _ => 0
  }

  lemma PerformKeepsRings(s: Store, op: Op)
    requires ValidRings(s.rings)
    ensures Perform(s, op).rings == s.rings
  {
  }

  ghost function Run(s: Store, ops: seq<Op>): (r: Store)
    requires ValidRings(s.rings)
    ensures r.rings == s.rings
    decreases |ops|
  {
    if ops == [] then s
    else
      PerformKeepsRings(s, ops[0]);
      Run(Perform(s, ops[0]), ops[1..])
  }

  ghost function GivenBackOverRun(s: Store, ops: seq<Op>, m: Measure): nat
    requires ValidRings(s.rings)
    decreases |ops|
  {
    if ops == [] then 0
    else
      PerformKeepsRings(s, ops[0]);
      GivenBack(s, ops[0], m) + GivenBackOverRun(Perform(s, ops[0]), ops[1..], m)
  }

  /** The transactions on record take no part in the totals. */
  lemma BookIsApart(s: Store, t: TxBook, m: Measure)
    ensures Consistent(s.(txs := t)) <==> Consistent(s)
    ensures Short(s.(txs := t), m) == Short(s, m) && Over(s.(txs := t), m) == Over(s, m)
  {
    hide Held, At;
    assert forall k :: MinedAt(s.(txs := t), k) == MinedAt(s, k);
  }

  lemma InsertKeeps(s: Store, tx: Tx, m: Measure)
    requires ValidRings(s.rings) && Consistent(s) && Insert(s, tx).Done?
    ensures var s' := Insert(s, tx).store;
            Consistent(s') && Short(s', m) == Short(s, m) && Over(s', m) == Over(s, m)
  {
    if tx.hash !in s.txs.unconfirmed {
      InsertKeepsTotals(s, tx.inputs, tx.hash);
      var mid := InsertInputs(s, tx.inputs, tx.hash).store;
      assert Short(mid, m) == Short(s, m) && Over(mid, m) == Over(s, m);
      BookIsApart(mid, Insert(s, tx).store.txs, m);
    }
  }

  lemma PerformAccounts(s: Store, op: Op, m: Measure)
    requires ValidRings(s.rings) && Consistent(s)
    ensures var s' := Perform(s, op);
            && Consistent(s')
            && Short(s', m) == Wrap(Short(s, m) + GivenBack(s, op, m))
            && Over(s', m) == Wrap(Over(s, m) + GivenBack(s, op, m))
  {
    hide Insert, Confirm, DeleteInputs, ComesBack, SameDrift, Held, At, Consistent, Short, Over;
    match op {
      case InsertOp(tx) =>
        if Insert(s, tx).Done? {
          InsertKeeps(s, tx, m);
        }
        DriftIsWrapped(s, m);
      case ConfirmOp(o, spentBy, confirmedBy) =>
        ConfirmAccounts(s, o, spentBy, confirmedBy, m);
        DriftIsWrapped(s, m);
      case DeleteOp(tx) =>
        DeleteKeepsMined(s, tx.inputs);
        DeleteDrifts(s, tx.inputs, m);
        BookIsApart(DeleteInputs(s, tx.inputs), Perform(s, op).txs, m);
    }
  }

  lemma DriftIsWrapped(s: Store, m: Measure)
    ensures Short(s, m) == Wrap(Short(s, m)) && Over(s, m) == Wrap(Over(s, m))
  {
  }

  lemma ConfirmAccounts(s: Store, o: OutPoint, spentBy: nat, confirmedBy: nat, m: Measure)
    requires ValidRings(s.rings) && Consistent(s)
    ensures var s' := Perform(s, ConfirmOp(o, spentBy, confirmedBy));
            Consistent(s') && Short(s', m) == Short(s, m) && Over(s', m) == Over(s, m)
  {
    hide Consistent;
    ConfirmKeepsTotals(s, o, spentBy, confirmedBy);
  }

  lemma WrapTwice(x: int, a: int, b: int)
    ensures Wrap(Wrap(x + a) + b) == Wrap(x + (a + b))
  {
  }

  /** MAIN RESULT on the totals. After every run of insertions, confirmations and deletions,
      successful or not, the mined totals are the exact sums over disjoint buckets, and the
      spendable totals are short, and the unconfirmed ones too high, by exactly what the
      deletions gave back, modulo 2^64. */
  lemma {:induction false} RunAccounts(s: Store, ops: seq<Op>, m: Measure)
    requires ValidRings(s.rings) && Consistent(s)
    ensures Consistent(Run(s, ops))
    ensures Short(Run(s, ops), m) == Wrap(Short(s, m) + GivenBackOverRun(s, ops, m))
    ensures Over(Run(s, ops), m) == Wrap(Over(s, m) + GivenBackOverRun(s, ops, m))
    decreases |ops|
  {
    hide Consistent, Short, Over, Perform, GivenBack, Wrap;
    DriftIsWrapped(s, m);
    if ops != [] {
      PerformKeepsRings(s, ops[0]);
      var s' := Perform(s, ops[0]);
      PerformAccounts(s, ops[0], m);
      RunAccounts(s', ops[1..], m);
      var given, later := GivenBack(s, ops[0], m), GivenBackOverRun(s', ops[1..], m);
      WrapTwice(Short(s, m), given, later);
      WrapTwice(Over(s, m), given, later);
    }
  }

  /** How far a run from exact totals sets them off. */
  ghost function RunDrift(s: Store, ops: seq<Op>, m: Measure): nat
    requires ValidRings(s.rings)
  {
    Wrap(GivenBackOverRun(s, ops, m))
  }

  ghost predicate DriftIs(e: Store, drift: nat, m: Measure) {
    Short(e, m) == Over(e, m) == drift
  }

  lemma DriftFromExact(s: Store, ops: seq<Op>, m: Measure)
    requires ValidRings(s.rings) && Consistent(s) && SpendableExact(s) && UnconfirmedExact(s)
    ensures Consistent(Run(s, ops)) && DriftIs(Run(s, ops), RunDrift(s, ops, m), m)
  {
    hide Short, Over, Run, GivenBackOverRun, Consistent, SpendableExact, UnconfirmedExact;
    RunAccounts(s, ops, m);
    ExactIffNoDrift(s);
    assert Short(s, m) == 0 && Over(s, m) == 0;
  }

  /** So from exact totals, both stay exact over a run exactly when the deletions gave nothing
      back, in every measure, modulo 2^64. */
  lemma ExactAfterRun(s: Store, ops: seq<Op>)
    requires ValidRings(s.rings) && Consistent(s) && SpendableExact(s) && UnconfirmedExact(s)
    ensures SpendableExact(Run(s, ops)) <==> forall m :: RunDrift(s, ops, m) == 0
    ensures UnconfirmedExact(Run(s, ops)) <==> forall m :: RunDrift(s, ops, m) == 0
  {
    hide Consistent, SpendableExact, UnconfirmedExact, RunDrift, Short, Over, Run;
    var e := Run(s, ops);
    forall m
      ensures Short(e, m) == RunDrift(s, ops, m) && Over(e, m) == RunDrift(s, ops, m)
    {
      DriftFromExact(s, ops, m);
    }
    assert forall m :: Over(e, m) == RunDrift(s, ops, m);
    DriftFromExact(s, ops, Abel);
    ExactIffNoDrift(e);
  }

  // ----- inserting a transaction and giving it up again -----

  lemma OutAndBack(s: Store, inserted: Store, back: Store, moved: set<OutPoint>, txHash: nat)
    requires s.matured.Keys !! s.unmined.Keys
    requires MovedOut(s, inserted, moved, txHash) && MovedBack(inserted, back, moved)
    ensures back.matured == s.matured && back.unmined == s.unmined
  {
  }

  /** The weight of the coins a transaction took out of the matured bucket. */
  ghost function TakenOut(s: Store, inserted: Store, m: Measure): int {
    Held(m, s.matured, s.tokens) - Held(m, inserted.matured, inserted.tokens)
  }

  /** A difference of drifts, taken apart. */
  lemma DriftedTotals(h: int, t: int, h': int, t': int)
    requires 0 <= t' < TWO64
    ensures Wrap(h' - t') == Wrap(h - t) ==> t' == Wrap(t - (h - h'))
    ensures Wrap(t' - h') == Wrap(t - h) ==> t' == Wrap(t - (h - h'))
  {
  }

  lemma InsertShifts(s: Store, tx: Tx, m: Measure)
    requires ValidRings(s.rings) && Consistent(s) && tx.hash !in s.txs.unconfirmed && Insert(s, tx).Done?
    ensures var inserted := Insert(s, tx).store;
            var taken := TakenOut(s, inserted, m);
            && At(inserted.spendable, m) == Wrap(At(s.spendable, m) - taken)
            && At(inserted.unconfirmed, m) == Wrap(At(s.unconfirmed, m) + taken)
            && 0 <= taken <= Held(m, s.matured, s.tokens)
            && taken == Held(m, CoinsOf(inserted.unmined), s.tokens) - Held(m, CoinsOf(s.unmined), s.tokens)
  {
    hide Insert, Consistent, Held, At;
    InsertKeeps(s, tx, m);
    InsertTakesOut(s, tx, m);
    var inserted := Insert(s, tx).store;
    ConsistentAt(s, m);
    ConsistentAt(inserted, m);
    SameDriftShifts(s, inserted, m);
  }

  lemma ConsistentAt(s: Store, m: Measure)
    requires Consistent(s)
    ensures MinedAt(s, m)
  {
  }

  /** Stores with the same mined totals that are as far off as each other. */
  lemma SameDriftShifts(s: Store, s': Store, m: Measure)
    requires MinedAt(s, m) && MinedAt(s', m) && Short(s', m) == Short(s, m) && Over(s', m) == Over(s, m)
    requires s'.tokens == s.tokens && s'.immature == s.immature && s'.mined == s.mined
    ensures var taken := TakenOut(s, s', m);
            && At(s'.spendable, m) == Wrap(At(s.spendable, m) - taken)
            && At(s'.unconfirmed, m) == Wrap(At(s.unconfirmed, m) + taken)
            && taken == Held(m, CoinsOf(s'.unmined), s.tokens) - Held(m, CoinsOf(s.unmined), s.tokens)
  {
    hide Held, At, CoinsOf, Wrap;
    DriftedTotals(Held(m, s.matured, s.tokens), At(s.spendable, m), Held(m, s'.matured, s'.tokens), At(s'.spendable, m));
    DriftedTotals(Held(m, CoinsOf(s.unmined), s.tokens), At(s.unconfirmed, m),
                  Held(m, CoinsOf(s'.unmined), s'.tokens), At(s'.unconfirmed, m));
  }

  lemma InsertTakesOut(s: Store, tx: Tx, m: Measure)
    requires ValidRings(s.rings) && tx.hash !in s.txs.unconfirmed && Insert(s, tx).Done?
    ensures var inserted := Insert(s, tx).store;
            && inserted.tokens == s.tokens && inserted.immature == s.immature && inserted.mined == s.mined
            && 0 <= Held(m, inserted.matured, s.tokens) <= Held(m, s.matured, s.tokens)
  {
    hide Held;
    InsertedBuckets(s, tx.inputs, tx.hash);
    HeldShrinks(m, s.matured, SpentSet(s.rings, tx.inputs), s.tokens);
  }

  lemma HeldShrinks(m: Measure, coins: map<OutPoint, Coin>, moved: set<OutPoint>, tokens: map<OutPoint, Token>)
    ensures Held(m, coins - moved, tokens) <= Held(m, coins, tokens)
  {
    SumSplit(Weights(m, coins, tokens), moved);
    assert Weights(m, coins - moved, tokens) == Weights(m, coins, tokens) - moved;
  }

  /** MAIN RESULT on the pair. Giving up a transaction just inserted restores both buckets and
      the mined totals exactly; each spendable total is left short, and each unconfirmed total
      too high, by exactly the weight of the coins the transaction had spent. */
  lemma InsertThenDelete(s: Store, tx: Tx, m: Measure)
    requires ValidRings(s.rings) && Consistent(s)
    requires tx.hash !in s.txs.unconfirmed && Insert(s, tx).Done?
    ensures var inserted := Insert(s, tx).store;
            var d := Delete(inserted, tx);
            var taken := TakenOut(s, inserted, m);
            && d.matured == s.matured && d.unmined == s.unmined && d.mined == s.mined && d.tokens == s.tokens
            && d.txs == inserted.txs.(unconfirmed := inserted.txs.unconfirmed - {tx.hash})
            && At(d.spendable, m) == At(inserted.spendable, m) == Wrap(At(s.spendable, m) - taken)
            && At(d.unconfirmed, m) == At(inserted.unconfirmed, m) == Wrap(At(s.unconfirmed, m) + taken)
            && (SpendableExact(s) ==> At(d.spendable, m) == At(s.spendable, m) - taken)
            && (UnconfirmedExact(s) ==> At(d.unconfirmed, m) == At(s.unconfirmed, m) + taken)
  {
    hide Insert, Delete, TakenOut, Consistent, Held, At;
    InsertShifts(s, tx, m);
    InsertDeleteBuckets(s, tx);
    NoWrapWhenExact(s, m, TakenOut(s, Insert(s, tx).store, m));
  }

  /** What is taken out of an exact total, and put on another, does not wrap it. */
  lemma NoWrapWhenExact(s: Store, m: Measure, taken: int)
    requires Consistent(s) && 0 <= taken <= Held(m, s.matured, s.tokens)
    ensures SpendableExact(s) ==> Wrap(At(s.spendable, m) - taken) == At(s.spendable, m) - taken
    ensures UnconfirmedExact(s) ==> Wrap(At(s.unconfirmed, m) + taken) == At(s.unconfirmed, m) + taken
  {
    ConsistentAt(s, m);
    hide Consistent, Held, At, Wrap;
    if SpendableExact(s) {
      assert At(s.spendable, m) == Held(m, s.matured, s.tokens);
      WrapSmall(At(s.spendable, m) - taken);
    }
    if UnconfirmedExact(s) {
      assert At(s.unconfirmed, m) == Held(m, CoinsOf(s.unmined), s.tokens);
      WrapSmall(At(s.unconfirmed, m) + taken);
    }
  }

  lemma InsertDeleteBuckets(s: Store, tx: Tx)
    requires ValidRings(s.rings) && Consistent(s)
    requires tx.hash !in s.txs.unconfirmed && Insert(s, tx).Done?
    ensures var inserted := Insert(s, tx).store;
            var d := Delete(inserted, tx);
            && d.matured == s.matured && d.unmined == s.unmined && d.mined == s.mined && d.tokens == s.tokens
            && d.spendable == inserted.spendable && d.unconfirmed == inserted.unconfirmed
            && d.txs == inserted.txs.(unconfirmed := inserted.txs.unconfirmed - {tx.hash})
  {
    var inserted := Insert(s, tx).store;
    InsertedBuckets(s, tx.inputs, tx.hash);
    DeletedBuckets(inserted, tx.inputs);
    DeleteKeepsRest(inserted, tx.inputs);
    OutAndBack(s, inserted, Delete(inserted, tx), SpentSet(s.rings, tx.inputs), tx.hash);
  }

  lemma {:induction false} DeleteKeepsRest(s: Store, inputs: seq<Input>)
    requires ValidRings(s.rings)
    ensures var s' := DeleteInputs(s, inputs);
            && s'.txs == s.txs && s'.relevant == s.relevant && s'.tokens == s.tokens
            && s'.spendable == s.spendable && s'.unconfirmed == s.unconfirmed
  {
    if inputs != [] {
      DeleteKeepsRest(s, inputs[..|inputs| - 1]);
    }
  }

  /** Confirming a coin takes its weight off a spendable total without wrapping around exactly
      when that total is at least the weight. */
  lemma ConfirmWraps(d: Store, o: OutPoint, spentBy: nat, confirmedBy: nat, m: Measure)
    requires o in d.matured && (d.matured[o].ctaut ==> o in d.tokens)
    ensures var r := Confirm(d, o, spentBy, confirmedBy);
            var w := Weight(m, d.matured[o], TokenAt(d.matured[o], d.tokens, o));
            r.Done? && (w <= At(d.spendable, m) <==> At(r.store.spendable, m) == At(d.spendable, m) - w)
  {
    MinusWraps(d.spendable, d.matured[o], TokenAt(d.matured[o], d.tokens, o), m);
  }

  /** So after a transaction was inserted and given up, confirming one of the wallet's coins
      wraps a spendable total, of ABEL or of a token, exactly when the coin weighs more than
      what the transaction had left. */
  lemma ConfirmAfterDelete(s: Store, tx: Tx, o: OutPoint, spentBy: nat, confirmedBy: nat, m: Measure)
    requires ValidRings(s.rings) && Consistent(s)
    requires tx.hash !in s.txs.unconfirmed && Insert(s, tx).Done?
    requires o in s.matured
    ensures var inserted := Insert(s, tx).store;
            var r := Confirm(Delete(inserted, tx), o, spentBy, confirmedBy);
            var w := Weight(m, s.matured[o], TokenAt(s.matured[o], s.tokens, o));
            r.Done? && (w <= At(inserted.spendable, m) <==> At(r.store.spendable, m) == At(inserted.spendable, m) - w)
  {
    hide Insert, Delete, Confirm;
    InsertDeleteBuckets(s, tx);
    ConfirmWraps(Delete(Insert(s, tx).store, tx), o, spentBy, confirmedBy, m);
  }

  // ----- rivals for a coin -----

  /** The transactions listed at any of these outputs. */
  ghost function ListedAt(relevant: map<OutPoint, seq<nat>>, outs: set<OutPoint>): set<nat> {
    set o, h | o in outs && h in Relevant(relevant, o) :: h
  }

  lemma SettledTwice(t: TxBook, a: set<nat>, b: set<nat>, txHash: nat)
    ensures Settled(Settled(t, a, txHash), b, txHash) == Settled(t, a + b, txHash)
    ensures Settled(t, {}, txHash) == t
  {
  }

  lemma OneMoreListed(relevant: map<OutPoint, seq<nat>>, moved: set<OutPoint>, o: OutPoint)
    ensures ListedAt(relevant, moved + {o}) == ListedAt(relevant, moved) + Elements(Relevant(relevant, o))
  {
  }

  /** The lists of outputs not spent yet are as they were. */
  ghost predicate ListsKept(s: Store, s': Store, moved: set<OutPoint>) {
    forall o | o !in moved :: Relevant(s'.relevant, o) == Relevant(s.relevant, o)
  }

  lemma {:induction false} InsertedBook(s: Store, inputs: seq<Input>, txHash: nat)
    requires ValidRings(s.rings) && InsertInputs(s, inputs, txHash).Done?
    ensures var s' := InsertInputs(s, inputs, txHash).store;
            var moved := SpentSet(s.rings, inputs);
            && s'.txs == Settled(s.txs, ListedAt(s.relevant, moved), txHash)
            && ListsKept(s, s', moved)
            && forall o <- moved :: txHash in Relevant(s'.relevant, o)
    decreases |inputs|
  {
    if inputs == [] {
      SettledTwice(s.txs, {}, {}, txHash);
      assert ListedAt(s.relevant, {}) == {};
    } else {
      var init, last := inputs[..|inputs| - 1], inputs[|inputs| - 1];
      InsertedBook(s, init, txHash);
      InsertedBuckets(s, init, txHash);
      var mid := InsertInputs(s, init, txHash).store;
      var moved := SpentSet(s.rings, init);
      match Spent(s.rings, last) {
        case None =>
          assert SpentSet(s.rings, inputs) == moved;
        case Some(o) =>
          assert o !in moved;
          assert Relevant(mid.relevant, o) == Relevant(s.relevant, o);
          SettledTwice(s.txs, ListedAt(s.relevant, moved), Elements(Relevant(s.relevant, o)), txHash);
          OneMoreListed(s.relevant, moved, o);
          hide Settled, ListedAt, Elements;
      }
    }
  }

  /** MAIN RESULT on rivals. After a transaction is inserted, no other transaction listed at a
      coin it spends is unconfirmed or confirmed any more; those that were are invalid now,
      nothing else became invalid, and the transaction is listed at each of its coins. */
  lemma InsertInvalidatesRivals(s: Store, tx: Tx)
    requires ValidRings(s.rings) && tx.hash !in s.txs.unconfirmed && Insert(s, tx).Done?
    ensures var s' := Insert(s, tx).store;
            var rivals := ListedAt(s.relevant, SpentSet(s.rings, tx.inputs)) - {tx.hash};
            && s'.txs.unconfirmed == s.txs.unconfirmed - rivals + {tx.hash}
            && rivals !! s'.txs.confirmed
            && (forall h :: h != tx.hash ==>
                  (h in s'.txs.invalid <==> h in s.txs.invalid || (h in rivals && h in s.txs.unconfirmed + s.txs.confirmed)))
            && (forall h :: h != tx.hash && h !in rivals ==> (h in s'.txs.confirmed <==> h in s.txs.confirmed))
            && (if tx.hash in ListedAt(s.relevant, SpentSet(s.rings, tx.inputs))
                then tx.hash !in s'.txs.confirmed && tx.hash !in s'.txs.invalid
                else (tx.hash in s'.txs.confirmed <==> tx.hash in s.txs.confirmed)
                     && (tx.hash in s'.txs.invalid <==> tx.hash in s.txs.invalid))
            && forall o <- SpentSet(s.rings, tx.inputs) :: tx.hash in Relevant(s'.relevant, o)
  {
    InsertedBook(s, tx.inputs, tx.hash);
  }
}
