/** What the operations of the transaction store record, and when they succeed (wtxmgr/db.go,
    wtxmgr/tx.go). */
module TxoLaws {
  import opened Wrappers
  import opened Coins
  import opened TxoBuckets
  import opened TxoTotals

  // ----- confirming -----

  /** MAIN RESULT on the confirmed record. It holds the coin that was matured, the transaction
      that spent it and the block that confirmed it; every other record, bucket and list is as
      it was. */
  lemma ConfirmRecords(s: Store, o: OutPoint, spentBy: nat, confirmedBy: nat)
    requires Consistent(s) && o in s.matured
    ensures var s' := Confirm(s, o, spentBy, confirmedBy).store;
            && s'.confirmed.Keys == s.confirmed.Keys + {o} && o !in s.confirmed
            && s'.confirmed[o].confirmedBy == confirmedBy && s'.confirmed[o].spent.spentBy == spentBy
            && s'.confirmed[o].spent.coin == s.matured[o]
            && (forall p <- s.confirmed :: s'.confirmed[p] == s.confirmed[p])
            && s'.matured.Keys == s.matured.Keys - {o} && (forall p <- s'.matured :: s'.matured[p] == s.matured[p])
            && s'.immature == s.immature && s'.unmined == s.unmined && s'.tokens == s.tokens && s'.rings == s.rings
            && s'.txs == s.txs && s'.relevant == s.relevant && s'.unconfirmed == s.unconfirmed
  {
  }

  lemma {:induction false} InsertInputsKeepsConfirmed(s: Store, inputs: seq<Input>, txHash: nat)
    requires ValidRings(s.rings) && InsertInputs(s, inputs, txHash).Done?
    ensures InsertInputs(s, inputs, txHash).store.confirmed == s.confirmed
  {
    if inputs != [] {
      InsertInputsKeepsConfirmed(s, inputs[..|inputs| - 1], txHash);
    }
  }

  lemma {:induction false} DeleteInputsKeepsConfirmed(s: Store, inputs: seq<Input>)
    requires ValidRings(s.rings)
    ensures DeleteInputs(s, inputs).confirmed == s.confirmed
  {
    if inputs != [] {
      DeleteInputsKeepsConfirmed(s, inputs[..|inputs| - 1]);
    }
  }

  lemma PerformKeepsConfirmed(s: Store, op: Op, o: OutPoint)
    requires ValidRings(s.rings) && Consistent(s) && o in s.confirmed
    ensures o in Perform(s, op).confirmed && Perform(s, op).confirmed[o] == s.confirmed[o]
  {
    match op {
      case InsertOp(tx) =>
        if tx.hash !in s.txs.unconfirmed && Insert(s, tx).Done? {
          InsertInputsKeepsConfirmed(s, tx.inputs, tx.hash);
        }
      case ConfirmOp(p, _, _) =>
        assert o in s.confirmed.Keys && o !in s.matured.Keys;
      case DeleteOp(tx) => DeleteInputsKeepsConfirmed(s, tx.inputs);
    }
  }

  /** MAIN RESULT on confirmed records: no later run changes one. */
  lemma {:induction false} RunKeepsConfirmed(s: Store, ops: seq<Op>, o: OutPoint)
    requires ValidRings(s.rings) && Consistent(s) && o in s.confirmed
    ensures o in Run(s, ops).confirmed && Run(s, ops).confirmed[o] == s.confirmed[o]
    decreases |ops|
  {
    if ops != [] {
      PerformKeepsRings(s, ops[0]);
      PerformKeepsConfirmed(s, ops[0], o);
      PerformAccounts(s, ops[0], Abel);
      RunKeepsConfirmed(Perform(s, ops[0]), ops[1..], o);
    }
  }

  // ----- the output an input spends -----

  /** The wallet's output whose serial number the input reveals, at the same position of the
      ring. */
  lemma SpentMeans(rings: map<nat, Ring>, input: Input, o: OutPoint)
    requires ValidRings(rings)
    ensures Spent(rings, input) == Some(o)
            <==> input.ringHash in rings
                 && exists i <- rings[input.ringHash].serials ::
                      rings[input.ringHash].serials[i] == input.serial && rings[input.ringHash].points[i] == o
  {
  }

  // ----- inserting -----

  /** Every input names a known ring, and the outputs they spend are there to be spent. */
  ghost predicate Spendable(s: Store, inputs: seq<Input>)
    requires ValidRings(s.rings)
  {
    (forall i :: 0 <= i < |inputs| ==> inputs[i].ringHash in s.rings)
    && (forall o <- SpentSet(s.rings, inputs) :: o in s.matured && (s.matured[o].ctaut ==> o in s.tokens))
  }

  /** No output is spent by two of the inputs. */
  ghost predicate NoneTwice(rings: map<nat, Ring>, inputs: seq<Input>)
    requires ValidRings(rings)
  {
    forall i, j :: 0 <= i < j < |inputs| && Spent(rings, inputs[i]).Some? ==> Spent(rings, inputs[i]) != Spent(rings, inputs[j])
  }

  lemma {:induction false} SpentSetIs(rings: map<nat, Ring>, inputs: seq<Input>)
    requires ValidRings(rings)
    ensures forall o :: o in SpentSet(rings, inputs) <==> exists i :: 0 <= i < |inputs| && Spent(rings, inputs[i]) == Some(o)
  {
    if inputs != [] {
      var n := |inputs| - 1;
      SpentSetIs(rings, inputs[..n]);
      forall o
        ensures o in SpentSet(rings, inputs) <==> exists i :: 0 <= i < |inputs| && Spent(rings, inputs[i]) == Some(o)
      {
        if o in SpentSet(rings, inputs[..n]) {
          var i :| 0 <= i < n && Spent(rings, inputs[..n][i]) == Some(o);
          assert inputs[i] == inputs[..n][i];
        }
        if exists i :: 0 <= i < |inputs| && Spent(rings, inputs[i]) == Some(o) {
          var i :| 0 <= i < |inputs| && Spent(rings, inputs[i]) == Some(o);
          assert i < n ==> inputs[..n][i] == inputs[i];
        }
      }
    }
  }

  lemma NoneTwiceStep(rings: map<nat, Ring>, inputs: seq<Input>)
    requires ValidRings(rings) && inputs != []
    ensures var n := |inputs| - 1;
            NoneTwice(rings, inputs)
            <==> NoneTwice(rings, inputs[..n])
                 && (Spent(rings, inputs[n]).Some? ==> Spent(rings, inputs[n]).value !in SpentSet(rings, inputs[..n]))
  {
    var n := |inputs| - 1;
    SpentSetIs(rings, inputs[..n]);
    if NoneTwice(rings, inputs) {
      forall i, j | 0 <= i < j < n && Spent(rings, inputs[..n][i]).Some?
        ensures Spent(rings, inputs[..n][i]) != Spent(rings, inputs[..n][j])
      {
        assert inputs[..n][i] == inputs[i] && inputs[..n][j] == inputs[j];
      }
      forall i | 0 <= i < n && Spent(rings, inputs[n]).Some?
        ensures Spent(rings, inputs[..n][i]) != Spent(rings, inputs[n])
      {
        assert inputs[..n][i] == inputs[i];
      }
    }
    if NoneTwice(rings, inputs[..n])
       && (Spent(rings, inputs[n]).Some? ==> Spent(rings, inputs[n]).value !in SpentSet(rings, inputs[..n])) {
      forall i, j | 0 <= i < j < |inputs| && Spent(rings, inputs[i]).Some?
        ensures Spent(rings, inputs[i]) != Spent(rings, inputs[j])
      {
        assert inputs[..n][i] == inputs[i];
        assert j < n ==> inputs[..n][j] == inputs[j];
      }
    }
  }

  lemma {:induction false} InsertInputsIff(s: Store, inputs: seq<Input>, txHash: nat)
    requires ValidRings(s.rings)
    ensures InsertInputs(s, inputs, txHash).Done? <==> Spendable(s, inputs) && NoneTwice(s.rings, inputs)
    decreases |inputs|
  {
    if inputs != [] {
      var n := |inputs| - 1;
      InsertInputsIff(s, inputs[..n], txHash);
      NoneTwiceStep(s.rings, inputs);
      SpendableStep(s, inputs);
      if InsertInputs(s, inputs[..n], txHash).Done? {
        InsertedBuckets(s, inputs[..n], txHash);
        LastInputIff(s, InsertInputs(s, inputs[..n], txHash).store, inputs[n], txHash, SpentSet(s.rings, inputs[..n]));
      }
    }
  }

  lemma SpendableStep(s: Store, inputs: seq<Input>)
    requires ValidRings(s.rings) && inputs != []
    ensures var n := |inputs| - 1;
            var spent := Spent(s.rings, inputs[n]);
            Spendable(s, inputs)
            <==> Spendable(s, inputs[..n]) && inputs[n].ringHash in s.rings
                 && (spent.Some? ==> spent.value in s.matured && (s.matured[spent.value].ctaut ==> spent.value in s.tokens))
  {
    var n := |inputs| - 1;
    assert inputs == inputs[..n] + [inputs[n]];
  }

  /** After the inputs before it, an input finds its coin matured exactly if it was, and none of
      them spent it. */
  lemma LastInputIff(s: Store, mid: Store, input: Input, txHash: nat, moved: set<OutPoint>)
    requires ValidRings(s.rings) && MovedOut(s, mid, moved, txHash) && mid.rings == s.rings
    ensures var spent := Spent(s.rings, input);
            InsertInput(mid, input, txHash).Done?
            <==> input.ringHash in s.rings
                 && (spent.Some? ==> spent.value in s.matured && spent.value !in moved
                                     && (s.matured[spent.value].ctaut ==> spent.value in s.tokens))
  {
  }

  /** MAIN RESULT on inserting. A known transaction changes nothing. A new one is inserted
      exactly if its rings are known, its coins are matured and none is spent twice; then each
      coin is recorded as spent by it, and nothing else moves. */
  lemma InsertOutcome(s: Store, tx: Tx)
    requires ValidRings(s.rings) && Consistent(s)
    ensures tx.hash in s.txs.unconfirmed ==> Insert(s, tx) == Done(s)
    ensures tx.hash !in s.txs.unconfirmed ==>
              (Insert(s, tx).Done?
               <==> (forall input <- tx.inputs :: input.ringHash in s.rings)
                    && SpentSet(s.rings, tx.inputs) <= s.matured.Keys && NoneTwice(s.rings, tx.inputs))
    ensures tx.hash !in s.txs.unconfirmed && Insert(s, tx).Done? ==>
              var s', moved := Insert(s, tx).store, SpentSet(s.rings, tx.inputs);
              && s'.matured.Keys == s.matured.Keys - moved && (forall o <- s'.matured :: s'.matured[o] == s.matured[o])
              && s'.unmined.Keys == s.unmined.Keys + moved
              && (forall o <- moved :: s'.unmined[o] == Unconfirmed(s.matured[o], tx.hash))
              && (forall o <- s.unmined :: s'.unmined[o] == s.unmined[o])
              && s'.mined == s.mined && s'.immature == s.immature && s'.confirmed == s.confirmed && s'.tokens == s.tokens
  {
    if tx.hash !in s.txs.unconfirmed {
      InsertInputsIff(s, tx.inputs, tx.hash);
      if Insert(s, tx).Done? {
        InsertedBuckets(s, tx.inputs, tx.hash);
      }
    }
  }

  /** The lists of transactions only grow, by this one, at the coins it spends. */
  lemma {:induction false} ListsGrow(s: Store, inputs: seq<Input>, txHash: nat, o: OutPoint)
    requires ValidRings(s.rings) && InsertInputs(s, inputs, txHash).Done?
    ensures var l, l' := Relevant(s.relevant, o), Relevant(InsertInputs(s, inputs, txHash).store.relevant, o);
            l' == if o in SpentSet(s.rings, inputs) && txHash !in l then l + [txHash] else l
    decreases |inputs|
  {
    if inputs != [] {
      ListsGrow(s, inputs[..|inputs| - 1], txHash, o);
    }
  }

  // ----- giving up -----

  /** MAIN RESULT on deleting: exactly the unmined coins the inputs spend come back, as they
      were; the record of the transaction goes; nothing else changes. */
  lemma DeleteOutcome(s: Store, tx: Tx)
    requires ValidRings(s.rings)
    ensures var d, back := Delete(s, tx), SpentSet(s.rings, tx.inputs);
            && d.unmined.Keys == s.unmined.Keys - back && (forall o <- d.unmined :: d.unmined[o] == s.unmined[o])
            && d.matured.Keys == s.matured.Keys + s.unmined.Keys * back
            && (forall o <- d.matured :: d.matured[o] == if o in s.unmined && o in back then s.unmined[o].coin else s.matured[o])
            && d.txs == s.txs.(unconfirmed := s.txs.unconfirmed - {tx.hash}) && d.relevant == s.relevant
            && d.confirmed == s.confirmed && d.tokens == s.tokens
            && d.mined == s.mined && d.spendable == s.spendable && d.unconfirmed == s.unconfirmed
  {
    DeletedBuckets(s, tx.inputs);
    DeleteKeepsRest(s, tx.inputs);
    DeleteInputsKeepsConfirmed(s, tx.inputs);
  }
}
