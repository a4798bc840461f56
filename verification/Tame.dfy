/** Which transactions are safe to rewrite their keys: a condition on addresses alone. */
module TameTransactions {
  import opened Common
  import opened Words
  import opened Versions
  import opened Mvcc
  import opened Vm
  import opened Serial

  /** The transaction rewrites no key with different values after its first write to it, whatever it sees. */
  ghost predicate Tame(e: Setting, tx: Tx) {
    forall view :: AllSettled(Execute(e.machine, tx, e.coinbase, view).writes)
  }

  /** Tame transactions settle wherever serial execution runs them. */
  lemma TameSettles(e: Setting, base: Base, txs: seq<Tx>)
    requires forall i :: 0 <= i < |txs| ==> Tame(e, txs[i])
    ensures Settles(e, base, txs)
  {
    hide AllSettled, Execute, SerialState, SettlesIn;
    forall i | 0 <= i < |txs| ensures SettlesAt(e, base, txs, i) {
      assert Tame(e, txs[i]);
      SettledExactly(e, SerialState(e, base, txs[..i]), txs[i]);
    }
  }

  /** The sender neither mines the block nor pays itself. */
  predicate Untangled(e: Setting, tx: Tx) {
    && tx.from != e.coinbase
    && (tx.value != ZERO ==> Recipient(e.machine, tx) != tx.from)
  }

  /** Such a transaction writes each key at most twice. */
  lemma AtMostTwice(e: Setting, tx: Tx, view: View, k: StateKey)
    requires Untangled(e, tx)
    ensures |Values(AllWrites(e.machine, tx, e.coinbase, view), k)| <= 2
  {
    hide AllWrites, BodyWrites, Debited, Refunded, Credited, NonceKey, BalanceKey, CodeKey, Values, NonceIn,
         BodyBalance;
    var r := Recipient(e.machine, tx);
    AllValues(e, tx, view, k);
    BodyValues(e.machine, tx, view, k);
    KeysApart(r, tx.from);
    KeysApart(r, r);
    KeysApart(tx.from, tx.from);
    KeysApart(tx.from, r);
    KeysApart(e.coinbase, tx.from);
    KeysApart(e.coinbase, r);
  }

  /** The address condition is enough for the last write to every key to show. */
  lemma UntangledIsTame(e: Setting, tx: Tx)
    requires Untangled(e, tx)
    ensures Tame(e, tx)
  {
    hide Untangled, AllWrites, AllReads, SenderReads, Less, TotalCost, GasUsed, WriteSetOf, Values;
    forall view, k ensures Settled(Values(Execute(e.machine, tx, e.coinbase, view).writes, k)) {
      AtMostTwice(e, tx, view, k);
      NoValues(k);
    }
  }

  // ---------------------------------------------------------------- why the condition is there

  /** Someone paying themselves writes their own balance three times: the debit, the credit and the refund. */
  lemma SelfPaymentWrites(e: Setting, tx: Tx, view: View)
    requires tx.to == Some(tx.from) && tx.value != ZERO && tx.from != e.coinbase
    ensures Values(AllWrites(e.machine, tx, e.coinbase, view), BalanceKey(tx.from)) ==
            [Some(Debited(tx, view)), Some(WrappingAdd(BalanceIn(view, tx.from), tx.value)),
                Some(Refunded(e.machine, tx, view))]
  {
    hide AllWrites, BodyWrites, Debited, Refunded, Credited, NonceKey, BalanceKey, CodeKey, Values, NonceIn,
         WrappingAdd;
    AllValues(e, tx, view, BalanceKey(tx.from));
    BodyValues(e.machine, tx, view, BalanceKey(tx.from));
    KeysApart(tx.from, tx.from);
    KeysApart(e.coinbase, tx.from);
  }

  /** After a self-payment a later reader is sure to see the refunded balance only if it equals the credited one. */
  lemma SelfPaymentShows(e: Setting, tx: Tx, view: View, c: Chain)
    requires tx.to == Some(tx.from) && tx.value != ZERO && tx.from != e.coinbase
    requires OlderThan(c, tx.seqNo) && tx.seqNo < U64_LIMIT - 1
    ensures var values := Values(AllWrites(e.machine, tx, e.coinbase, view), BalanceKey(tx.from));
            (forall search :: SearchOk(search) ==>
               ReadFor(AddAll(search, c, tx.seqNo, values), tx.seqNo + 1) ==
                       Some((Some(Refunded(e.machine, tx, view)), tx.seqNo))) <==>
            WrappingAdd(BalanceIn(view, tx.from), tx.value) == Refunded(e.machine, tx, view)
  {
    hide SearchOk, AddAll, ReadFor, OlderThan, AllWrites, WrappingAdd, Debited, Refunded, Values;
    SelfPaymentWrites(e, tx, view);
    var values := Values(AllWrites(e.machine, tx, e.coinbase, view), BalanceKey(tx.from));
    RewriteExact(c, tx.seqNo, values);
    assert (forall i :: 1 <= i < |values| ==> values[i] == values[2]) <==> values[1] == values[2];
  }
}
