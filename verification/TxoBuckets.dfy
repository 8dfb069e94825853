/** The output buckets of the transaction store and the totals stored beside them
    (wtxmgr/db.go, wtxmgr/db_ctaut.go, wtxmgr/tx.go). A coin of the wallet is immature,
    matured, spent but not mined, or spent and confirmed. What the operations keep is in
    TxoTotals. */
module TxoBuckets {
  import opened Wrappers
  import opened Coins

  const TWO64: int := 0x1_0000_0000_0000_0000

  type uint64 = x: int | 0 <= x < TWO64

  /** What a token coin carries: a root of the token, or an amount of it. */
  datatype Token = Token(id: string, root: bool, value: nat)

  datatype Unconfirmed = Unconfirmed(coin: Coin, spentBy: nat)

  datatype Confirmed = Confirmed(spent: Unconfirmed, confirmedBy: nat)

  /** A ring of outputs; `serials` gives the serial numbers of those that are the wallet's. */
  datatype Ring = Ring(points: seq<OutPoint>, serials: map<nat, nat>)

  /** An input names a ring and reveals one serial number. */
  datatype Input = Input(ringHash: nat, serial: nat)

  datatype Tx = Tx(hash: nat, inputs: seq<Input>)

  // ----- stored totals -----

  /** Totals of ABEL and, token by token, of roots and of amounts. A missing entry reads 0. */
  datatype Totals = Totals(amount: uint64, roots: map<string, uint64>, values: map<string, uint64>)

  /** What can be added up over coins. */
  datatype Measure = Abel | Roots(id: string) | Amount(id: string)

  function Get(m: map<string, uint64>, id: string): uint64 {
    if id in m then m[id] else 0
  }

  function At(t: Totals, m: Measure): uint64 {
    match m
    case Abel => t.amount
    case Roots(id) => Get(t.roots, id)
    case Amount(id) => Get(t.values, id)
  }

  function Weight(m: Measure, coin: Coin, token: Option<Token>): nat {
    match m
    case Abel => coin.amount
    case Roots(id) => if token.Some? && token.value.root && token.value.id == id then 1 else 0
    case Amount(id) => if token.Some? && !token.value.root && token.value.id == id then token.value.value else 0
  }

  /** uint64 arithmetic wraps around. */
  function Wrap(x: int): uint64 { x % TWO64 }

  function Minus(t: Totals, coin: Coin, token: Option<Token>): Totals {
    var t' := t.(amount := Wrap(t.amount - coin.amount));
    if token.None? then t'
    else
      var id := token.value.id;
      if token.value.root then t'.(roots := t.roots[id := Wrap(Get(t.roots, id) - 1)])
      else t'.(values := t.values[id := Wrap(Get(t.values, id) - token.value.value)])
  }

  function Plus(t: Totals, coin: Coin, token: Option<Token>): Totals {
    var t' := t.(amount := Wrap(t.amount + coin.amount));
    if token.None? then t'
    else
      var id := token.value.id;
      if token.value.root then t'.(roots := t.roots[id := Wrap(Get(t.roots, id) + 1)])
      else t'.(values := t.values[id := Wrap(Get(t.values, id) + token.value.value)])
  }

  function TokenAt(coin: Coin, tokens: map<OutPoint, Token>, o: OutPoint): Option<Token> {
    if coin.ctaut && o in tokens then Some(tokens[o]) else None
  }

  // ----- the store -----

  /** The transactions on record, by what became of them. */
  datatype TxBook = TxBook(unconfirmed: set<nat>, confirmed: set<nat>, invalid: set<nat>)

  /** `relevant` lists, for an output, the transactions known to spend it. */
  datatype Store = Store(
    immature: map<OutPoint, Coin>,
    matured: map<OutPoint, Coin>,
    unmined: map<OutPoint, Unconfirmed>,
    confirmed: map<OutPoint, Confirmed>,
    tokens: map<OutPoint, Token>,
    rings: map<nat, Ring>,
    txs: TxBook,
    relevant: map<OutPoint, seq<nat>>,
    mined: Totals,
    spendable: Totals,
    unconfirmed: Totals)

  /** Rings list only their own outputs, and different outputs have different serials. */
  ghost predicate ValidRings(rings: map<nat, Ring>) {
    forall h <- rings ::
      (forall i <- rings[h].serials :: i < |rings[h].points|)
      && forall i <- rings[h].serials, j <- rings[h].serials ::
           rings[h].serials[i] == rings[h].serials[j] ==> i == j
  }

  /** The wallet's own output an input spends, if it spends one. */
  ghost function Spent(rings: map<nat, Ring>, input: Input): Option<OutPoint>
    requires ValidRings(rings)
  {
    if input.ringHash in rings && exists i <- rings[input.ringHash].serials ::
         rings[input.ringHash].serials[i] == input.serial
    then
      var i :| i in rings[input.ringHash].serials && rings[input.ringHash].serials[i] == input.serial;
      Some(rings[input.ringHash].points[i])
    else None
  }

  // ----- the operations as functions -----

  datatype Outcome = Done(store: Store) | Failed | Panicked

  /** ConfirmSpentTXO. A miss in the matured bucket is no error to its caller, which then
      follows a nil pointer; the lookup in the unmined bucket behind it is never reached. */
  function Confirm(s: Store, o: OutPoint, spentBy: nat, confirmedBy: nat): Outcome {
    if o !in s.matured then Panicked
    else
      var coin := s.matured[o];
      if coin.ctaut && o !in s.tokens then Failed
      else
        var token := TokenAt(coin, s.tokens, o);
        Done(s.(matured := s.matured - {o},
                confirmed := s.confirmed[o := Confirmed(Unconfirmed(coin, spentBy), confirmedBy)],
                mined := Minus(s.mined, coin, token),
                spendable := Minus(s.spendable, coin, token)))
  }

  function Relevant(relevant: map<OutPoint, seq<nat>>, o: OutPoint): seq<nat> {
    if o in relevant then relevant[o] else []
  }

  /** A transaction and its rivals for a coin: those on record become invalid, and whatever
      was recorded of the transaction itself as confirmed or invalid is dropped. */
  function Settled(t: TxBook, listed: set<nat>, txHash: nat): TxBook {
    TxBook(t.unconfirmed - (listed - {txHash}),
           t.confirmed - listed,
           (t.invalid + (listed - {txHash}) * (t.unconfirmed + t.confirmed)) - listed * {txHash})
  }

  function Noted(relevant: map<OutPoint, seq<nat>>, o: OutPoint, txHash: nat): map<OutPoint, seq<nat>> {
    if txHash in Relevant(relevant, o) then relevant else relevant[o := Relevant(relevant, o) + [txHash]]
  }

  /** One input of InsertTx: the coin moves from matured to spent but unmined. */
  ghost function InsertInput(s: Store, input: Input, txHash: nat): Outcome
    requires ValidRings(s.rings)
  {
    if input.ringHash !in s.rings then Panicked
    else
      match Spent(s.rings, input)
      case None => Done(s)
      case Some(o) =>
        if o !in s.matured || (s.matured[o].ctaut && o !in s.tokens) then Failed
        else
          var coin := s.matured[o];
          var token := TokenAt(coin, s.tokens, o);
          Done(s.(matured := s.matured - {o},
                  unmined := s.unmined[o := Unconfirmed(coin, txHash)],
                  spendable := Minus(s.spendable, coin, token),
                  unconfirmed := Plus(s.unconfirmed, coin, token),
                  txs := Settled(s.txs, Elements(Relevant(s.relevant, o)), txHash),
                  relevant := Noted(s.relevant, o, txHash)))
  }

  ghost function InsertInputs(s: Store, inputs: seq<Input>, txHash: nat): (r: Outcome)
    requires ValidRings(s.rings)
    ensures r.Done? ==> r.store.rings == s.rings
  {
    if inputs == [] then Done(s)
    else
      match InsertInputs(s, inputs[..|inputs| - 1], txHash)
      case Done(s') => InsertInput(s', inputs[|inputs| - 1], txHash)
      case other => other
  }

  ghost function Insert(s: Store, tx: Tx): (r: Outcome)
    requires ValidRings(s.rings)
    ensures r.Done? ==> r.store.rings == s.rings
  {
    if tx.hash in s.txs.unconfirmed then Done(s)
    else
      match InsertInputs(s, tx.inputs, tx.hash)
      case Done(s') => Done(s'.(txs := s'.txs.(unconfirmed := s'.txs.unconfirmed + {tx.hash})))
      case other => other
  }

  /** One input of DeleteRawUnmined: the coin moves back. No total is touched. */
  ghost function DeleteInput(s: Store, input: Input): Store
    requires ValidRings(s.rings)
  {
    match Spent(s.rings, input)
    case None => s
    case Some(o) =>
      if o in s.unmined then s.(unmined := s.unmined - {o}, matured := s.matured[o := s.unmined[o].coin]) else s
  }

  ghost function DeleteInputs(s: Store, inputs: seq<Input>): (r: Store)
    requires ValidRings(s.rings)
    ensures r.rings == s.rings
  {
    if inputs == [] then s else DeleteInput(DeleteInputs(s, inputs[..|inputs| - 1]), inputs[|inputs| - 1])
  }

  ghost function Delete(s: Store, tx: Tx): Store
    requires ValidRings(s.rings)
  {
    var s' := DeleteInputs(s, tx.inputs);
    s'.(txs := s'.txs.(unconfirmed := s'.txs.unconfirmed - {tx.hash}))
  }

  // ----- the operations as the program runs them -----

  class TxStore {
    var immature: map<OutPoint, Coin>
    var matured: map<OutPoint, Coin>
    var unmined: map<OutPoint, Unconfirmed>
    var confirmed: map<OutPoint, Confirmed>
    var tokens: map<OutPoint, Token>
    var rings: map<nat, Ring>
    var unconfirmedTxs: set<nat>
    var confirmedTxs: set<nat>
    var invalidTxs: set<nat>
    var relevantTxs: map<OutPoint, seq<nat>>
    var mined: Totals
    var spendable: Totals
    var unconfirmed: Totals

    function State(): Store
      reads this
    {
      Store(immature, matured, unmined, confirmed, tokens, rings,
            TxBook(unconfirmedTxs, confirmedTxs, invalidTxs), relevantTxs, mined, spendable, unconfirmed)
    }

    constructor (s: Store)
      ensures State() == s
    {
      immature, matured, unmined, confirmed := s.immature, s.matured, s.unmined, s.confirmed;
      tokens, rings, relevantTxs := s.tokens, s.rings, s.relevant;
      unconfirmedTxs, confirmedTxs, invalidTxs := s.txs.unconfirmed, s.txs.confirmed, s.txs.invalid;
      mined, spendable, unconfirmed := s.mined, s.spendable, s.unconfirmed;
    }

    /** To be called for matured outputs only. */
    method ConfirmSpentTXO(o: OutPoint, spentBy: nat, confirmedBy: nat) returns (ok: bool)
      requires o in matured
      modifies this
      ensures ok <==> Confirm(old(State()), o, spentBy, confirmedBy).Done?
      ensures ok ==> Done(State()) == Confirm(old(State()), o, spentBy, confirmedBy)
    {
      var coin := matured[o];
      matured := matured - {o};
      if coin.ctaut && o !in tokens {
        return false;
      }
      var token := TokenAt(coin, tokens, o);
      confirmed := confirmed[o := Confirmed(Unconfirmed(coin, spentBy), confirmedBy)];
      spendable := Minus(spendable, coin, token);
      mined := Minus(mined, coin, token);
      ok := true;
    }

    method FindSpent(input: Input) returns (o: Option<OutPoint>)
      requires ValidRings(rings) && input.ringHash in rings
      ensures o == Spent(rings, input)
    {
      var ring := rings[input.ringHash];
      var rest := ring.serials.Keys;
      while rest != {}
        invariant rest <= ring.serials.Keys
        invariant forall i <- ring.serials.Keys - rest :: ring.serials[i] != input.serial
        decreases rest
      {
        var i :| i in rest;
        if ring.serials[i] == input.serial {
          return Some(ring.points[i]);
        }
        rest := rest - {i};
      }
      o := None;
    }

    method InsertTx(tx: Tx) returns (ok: bool)
      requires ValidRings(rings)
      requires forall input <- tx.inputs :: input.ringHash in rings
      modifies this
      ensures ok <==> Insert(old(State()), tx).Done?
      ensures ok ==> Done(State()) == Insert(old(State()), tx)
    {
      if tx.hash in unconfirmedTxs {
        return true;
      }
      hide InsertInput;
      var i := 0;
      while i < |tx.inputs|
        invariant 0 <= i <= |tx.inputs|
        invariant rings == old(rings)
        invariant InsertInputs(old(State()), tx.inputs[..i], tx.hash) == Done(State())
      {
        assert tx.inputs[..i + 1][..i] == tx.inputs[..i];
        ok := SpendInput(tx.inputs[i], tx.hash);
        if !ok {
          InsertFailsEarly(old(State()), tx.inputs, i + 1, tx.hash);
          return;
        }
        i := i + 1;
      }
      assert tx.inputs[..i] == tx.inputs;
      unconfirmedTxs := unconfirmedTxs + {tx.hash};
      ok := true;
    }

    method SpendInput(input: Input, txHash: nat) returns (ok: bool)
      requires ValidRings(rings) && input.ringHash in rings
      modifies this
      ensures ok <==> InsertInput(old(State()), input, txHash).Done?
      ensures ok ==> Done(State()) == InsertInput(old(State()), input, txHash)
      ensures rings == old(rings)
    {
      hide Minus, Plus, Settled, Noted, Relevant, ValidRings;
      var o := FindSpent(input);
      if o.None? {
        return true;
      }
      if o.value !in matured {
        return false;
      }
      var coin := matured[o.value];
      if coin.ctaut && o.value !in tokens {
        return false;
      }
      MoveToUnmined(o.value, coin, txHash);
      SettleConflicts(o.value, txHash);
      ok := true;
    }

    /** Goes through the transactions known to spend the coin. */
    method SettleConflicts(o: OutPoint, txHash: nat)
      modifies this`unconfirmedTxs, this`confirmedTxs, this`invalidTxs, this`relevantTxs
      ensures TxBook(unconfirmedTxs, confirmedTxs, invalidTxs)
           == Settled(old(TxBook(unconfirmedTxs, confirmedTxs, invalidTxs)), Elements(Relevant(old(relevantTxs), o)), txHash)
      ensures relevantTxs == Noted(old(relevantTxs), o, txHash)
    {
      var listed := Relevant(relevantTxs, o);
      var known := false;
      var i := 0;
      while i < |listed|
        invariant 0 <= i <= |listed|
        invariant known <==> txHash in listed[..i]
        invariant relevantTxs == old(relevantTxs)
        invariant TxBook(unconfirmedTxs, confirmedTxs, invalidTxs)
               == Settled(old(TxBook(unconfirmedTxs, confirmedTxs, invalidTxs)), Elements(listed[..i]), txHash)
      {
        var h := listed[i];
        assert listed[..i + 1] == listed[..i] + [h];
        assert Elements(listed[..i + 1]) == Elements(listed[..i]) + {h};
        SettledOnce(old(TxBook(unconfirmedTxs, confirmedTxs, invalidTxs)), Elements(listed[..i]), h, txHash);
        hide Settled, Elements;
        if h == txHash {
          known := true;
          confirmedTxs := confirmedTxs - {h};
          invalidTxs := invalidTxs - {h};
        } else {
          if h in unconfirmedTxs {
            unconfirmedTxs := unconfirmedTxs - {h};
            invalidTxs := invalidTxs + {h};
          }
          if h in confirmedTxs {
            confirmedTxs := confirmedTxs - {h};
            invalidTxs := invalidTxs + {h};
          }
        }
        i := i + 1;
      }
      assert listed[..i] == listed;
      if !known {
        relevantTxs := relevantTxs[o := listed + [txHash]];
      }
    }

    method MoveToUnmined(o: OutPoint, coin: Coin, txHash: nat)
      modifies this`matured, this`unmined, this`spendable, this`unconfirmed
      ensures matured == old(matured) - {o}
      ensures unmined == old(unmined)[o := Unconfirmed(coin, txHash)]
      ensures spendable == Minus(old(spendable), coin, TokenAt(coin, tokens, o))
      ensures unconfirmed == Plus(old(unconfirmed), coin, TokenAt(coin, tokens, o))
    {
      spendable := Minus(spendable, coin, TokenAt(coin, tokens, o));
      unconfirmed := Plus(unconfirmed, coin, TokenAt(coin, tokens, o));
      matured := matured - {o};
      unmined := unmined[o := Unconfirmed(coin, txHash)];
    }

    method DeleteRawUnmined(tx: Tx)
      requires ValidRings(rings)
      modifies this
      ensures State() == Delete(old(State()), tx)
    {
      var i := 0;
      while i < |tx.inputs|
        invariant 0 <= i <= |tx.inputs|
        invariant rings == old(rings)
        invariant State() == DeleteInputs(old(State()), tx.inputs[..i])
      {
        assert tx.inputs[..i + 1][..i] == tx.inputs[..i];
        if tx.inputs[i].ringHash in rings {
          var o := FindSpent(tx.inputs[i]);
          if o.Some? && o.value in unmined {
            var spent := unmined[o.value];
            unmined := unmined - {o.value};
            matured := matured[o.value := spent.coin];
          }
        }
        i := i + 1;
      }
      assert tx.inputs[..i] == tx.inputs;
      unconfirmedTxs := unconfirmedTxs - {tx.hash};
    }
  }

  /** One more listed transaction. */
  lemma SettledOnce(t: TxBook, listed: set<nat>, h: nat, txHash: nat)
    ensures var b := Settled(t, listed, txHash);
            Settled(t, listed + {h}, txHash)
            == if h == txHash then b.(confirmed := b.confirmed - {h}, invalid := b.invalid - {h})
               else TxBook(b.unconfirmed - {h}, b.confirmed - {h},
                           if h in b.unconfirmed || h in b.confirmed then b.invalid + {h} else b.invalid)
  {
  }

  lemma {:induction false} InsertFailsEarly(s: Store, inputs: seq<Input>, n: nat, txHash: nat)
    requires ValidRings(s.rings) && n <= |inputs| && !InsertInputs(s, inputs[..n], txHash).Done?
    ensures !InsertInputs(s, inputs, txHash).Done?
    decreases |inputs|
  {
    if n < |inputs| {
      assert inputs[..|inputs| - 1][..n] == inputs[..n];
      InsertFailsEarly(s, inputs[..|inputs| - 1], n, txHash);
    } else {
      assert inputs[..n] == inputs;
    }
  }
}
