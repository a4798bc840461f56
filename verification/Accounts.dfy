/** What a transaction does to the accounts, told by slots and numbers alone. */
module Accounts {
  import opened Common
  import opened Words
  import opened Results
  import opened Mvcc
  import opened Vm
  import opened Serial
  import opened Conservation

  /** An account's balance is in slot 0, its nonce in slot 1, its code word in slot 2. */
  function Slot(a: Address, n: U64): StateKey {
    StateKey(a, [n, 0, 0, 0])
  }

  /** The lowest limb of the nonce slot, zero if there is none. */
  function StoredNonce(s: Base, a: Address): U64 {
    if Slot(a, 1) in s then s[Slot(a, 1)][0] else 0
  }

  function StoredBalance(s: Base, a: Address): nat {
    if Slot(a, 0) in s then Val(s[Slot(a, 0)]) else 0
  }

  /** The value plus the gas limit at the price's lowest limb, which is multiplied on 64 bits. */
  function Cost(tx: Tx): nat {
    (Val(tx.value) + Wrap(tx.gasLimit as int * tx.gasPrice[0])) % U256_LIMIT
  }

  /** The debit: only the lowest limb of the cost, borrowing from the second limb of the balance if that has any. */
  function AfterDebit(balance: nat, cost: nat): int {
    balance - cost % U64_LIMIT +
    (if balance % U64_LIMIT < cost % U64_LIMIT && balance / U64_LIMIT % U64_LIMIT == 0 then U64_LIMIT else 0)
  }

  function After(e: Setting, s: Base, tx: Tx): Base {
    ApplyBase(s, SerialOutcome(e, s, tx).writes)
  }

  predicate Passes(e: Setting, s: Base, tx: Tx) {
    SerialOutcome(e, s, tx).result.status == Success
  }

  // ---------------------------------------------------------------- the verdict

  lemma CostVal(tx: Tx)
    ensures Val(TotalCost(tx)) == Cost(tx)
  {
    hide Val, WrappingAdd;
    AddExact(tx.value, MulPrice(tx, tx.gasLimit));
    OneLimbVal(Wrap(tx.gasLimit as int * tx.gasPrice[0]));
  }

  /** Which check fails first, and what a failure reports and leaves behind. */
  lemma Verdict(e: Setting, s: Base, tx: Tx)
    ensures var r, stored := SerialOutcome(e, s, tx).result, StoredNonce(s, tx.from);
            && r.txSeq == tx.seqNo
            && (Passes(e, s, tx) <==> stored == tx.nonce && StoredBalance(s, tx.from) >= Cost(tx))
            && (stored != tx.nonce ==> r.output == Error(InvalidNonce(stored, tx.nonce)))
            && (stored == tx.nonce && StoredBalance(s, tx.from) < Cost(tx) ==> r.output == Error(InsufficientBalance))
            && (!Passes(e, s, tx) ==>
                r.status == Failure && r.gasUsed == tx.gasLimit && r.writeSet == map[] && After(e, s, tx) == s)
  {
    hide Val, WrappingAdd, AllWrites, AllReads, SenderReads, WriteSetOf, GasUsed, TotalCost, Cost;
    CostVal(tx);
    StoredSeen(s, tx.from);
  }

  lemma StoredSeen(s: Base, a: Address)
    ensures Val(BalanceIn(PlainView(s), a)) == StoredBalance(s, a) && NonceIn(PlainView(s), a) == StoredNonce(s, a)
    ensures Balance(s, a) == StoredBalance(s, a)
  {
  }

  /** The gas a transaction that goes through reports, and its output. */
  lemma GasReported(e: Setting, s: Base, tx: Tx)
    requires Passes(e, s, tx)
    ensures var r := SerialOutcome(e, s, tx).result;
            var plain := tx.to.Some? && (tx.to.value !in e.machine.code || e.machine.code[tx.to.value] == []);
            var metered := Wrap(if tx.to.Some? then 21000 + 16 * |tx.data| else 32000 + 200 * |tx.data|);
            && (plain ==> r.gasUsed == 21000)
            && (!plain ==> r.gasUsed == if metered <= tx.gasLimit then metered else tx.gasLimit)
            && r.output == Bytes(if tx.to.Some? then [] else e.machine.createAddress(tx.from, tx.nonce))
  {
    hide Val, WrappingAdd, AllWrites, AllReads, SenderReads, WriteSetOf, TotalCost, NonceIn, BalanceIn;
  }

  // ---------------------------------------------------------------- the state left behind

  lemma SlotsApart(a: Address, b: Address)
    ensures Slot(a, 0) == BalanceKey(a) && Slot(a, 1) == NonceKey(a) && Slot(a, 2) == CodeKey(a)
    ensures Slot(a, 0) != Slot(b, 1) && Slot(a, 0) != Slot(b, 2) && Slot(a, 1) != Slot(b, 2)
    ensures forall n :: Slot(a, n) == Slot(b, n) ==> a == b
  {
    assert Slot(a, 0).slot[0] == 0 && Slot(a, 1).slot[0] == 1 && Slot(b, 1).slot[0] == 1 && Slot(b, 2).slot[0] == 2;
    forall n | Slot(a, n) == Slot(b, n) ensures a == b {
      assert Slot(a, n).address == a && Slot(b, n).address == b;
    }
  }

  lemma SuccessWrites(e: Setting, s: Base, tx: Tx)
    requires Passes(e, s, tx)
    ensures SerialOutcome(e, s, tx).writes == AllWrites(e.machine, tx, e.coinbase, PlainView(s))
  {
    hide AllWrites, AllReads, SenderReads, WriteSetOf, GasUsed, TotalCost, NonceIn, BalanceIn;
  }

  /** The last value written to a key is what is left there. */
  lemma FinalWord(e: Setting, s: Base, tx: Tx, k: StateKey)
    requires Passes(e, s, tx)
    ensures var m, r, view := e.machine, Recipient(e.machine, tx), PlainView(s);
            Lookup(After(e, s, tx), k) ==
            if k == BalanceKey(e.coinbase) then Some(Credited(m, tx, e.coinbase, view))
            else if k == BalanceKey(tx.from) then Some(Refunded(m, tx, view))
            else if k == NonceKey(tx.from) then Some(FromU64(Wrap(NonceIn(view, tx.from) as int + 1)))
            else if tx.value != ZERO && k == BalanceKey(r) then Some(BodyBalance(tx, view))
            else if tx.to.None? && k == CodeKey(r) then Some(m.codeWord(tx.data))
            else Lookup(s, k)
  {
    hide AllWrites, Debited, Refunded, Credited, BodyBalance, NonceIn, Values, ApplyBase, BodyWrites, SerialOutcome,
         BalanceKey, NonceKey, CodeKey;
    var view, r := PlainView(s), Recipient(e.machine, tx);
    SuccessWrites(e, s, tx);
    ApplyBaseLookup(s, AllWrites(e.machine, tx, e.coinbase, view), k);
    AllValues(e, tx, view, k);
    BodyValues(e.machine, tx, view, k);
    KeysApart(tx.from, tx.from);
    KeysApart(e.coinbase, tx.from);
    KeysApart(r, tx.from);
    KeysApart(r, r);
    KeysApart(tx.from, r);
    KeysApart(e.coinbase, r);
  }

  /** Nonces: the sender's moves on by one modulo 2^64, no other changes. */
  lemma NonceMoves(e: Setting, s: Base, tx: Tx, a: Address)
    ensures Passes(e, s, tx) ==> StoredNonce(s, tx.from) == tx.nonce
    ensures StoredNonce(After(e, s, tx), a) ==
            if Passes(e, s, tx) && a == tx.from then Wrap(tx.nonce as int + 1) else StoredNonce(s, a)
  {
    hide Cost, After, SerialOutcome, Refunded, Credited, BodyBalance, NonceIn;
    Verdict(e, s, tx);
    if Passes(e, s, tx) {
      FinalWord(e, s, tx, Slot(a, 1));
      StoredSeen(s, tx.from);
      SlotsApart(e.coinbase, a);
      SlotsApart(tx.from, a);
      SlotsApart(a, tx.from);
      SlotsApart(Recipient(e.machine, tx), a);
      SlotsApart(a, Recipient(e.machine, tx));
    }
  }

  /** A transaction that went through fails when it comes again, and so does any other with its sender and nonce. */
  lemma ReplayFails(e: Setting, s: Base, tx: Tx, again: Tx)
    requires Passes(e, s, tx) && again.from == tx.from && again.nonce == tx.nonce
    ensures var r := SerialOutcome(e, After(e, s, tx), again).result;
            r.status == Failure && r.output == Error(InvalidNonce(Wrap(tx.nonce as int + 1), tx.nonce))
  {
    hide Cost, After, SerialOutcome, StoredNonce;
    NonceMoves(e, s, tx, tx.from);
    Verdict(e, After(e, s, tx), again);
    WrapMoves(tx.nonce);
  }

  lemma WrapMoves(n: U64)
    ensures Wrap(n as int + 1) != n
  {
  }

  /** Code: a creation leaves its code word, and nothing else changes a code slot. */
  lemma CodeMoves(e: Setting, s: Base, tx: Tx, a: Address)
    requires Passes(e, s, tx)
    ensures Lookup(After(e, s, tx), Slot(a, 2)) ==
            if tx.to.None? && a == e.machine.createAddress(tx.from, tx.nonce) then Some(e.machine.codeWord(tx.data))
            else Lookup(s, Slot(a, 2))
  {
    hide After, SerialOutcome, Refunded, Credited, BodyBalance, NonceIn;
    FinalWord(e, s, tx, Slot(a, 2));
    SlotsApart(e.coinbase, a);
    SlotsApart(tx.from, a);
    SlotsApart(Recipient(e.machine, tx), a);
    SlotsApart(a, Recipient(e.machine, tx));
  }

  /** Slots other than these three are never written. */
  lemma OtherSlotsStay(e: Setting, s: Base, tx: Tx, k: StateKey)
    requires k.slot != [0, 0, 0, 0] && k.slot != [1, 0, 0, 0] && k.slot != [2, 0, 0, 0]
    ensures Lookup(After(e, s, tx), k) == Lookup(s, k)
  {
    if Passes(e, s, tx) {
      hide After, SerialOutcome, Refunded, Credited, BodyBalance, NonceIn;
      FinalWord(e, s, tx, k);
    } else {
      Verdict(e, s, tx);
    }
  }

  // ---------------------------------------------------------------- balances

  lemma DebitVal(tx: Tx, view: View)
    ensures Val(Debited(tx, view)) == AfterDebit(Val(BalanceIn(view, tx.from)), Cost(tx))
  {
    hide Val, TotalCost, BalanceIn, SubLow, Cost;
    var a, b := BalanceIn(view, tx.from), TotalCost(tx);
    SubLowVal(a, b);
    CostVal(tx);
    LowLimbs(a);
    LowLimbs(b);
  }

  lemma LowLimbs(w: U256)
    ensures w[0] == Val(w) % U64_LIMIT && w[1] == Val(w) / U64_LIMIT % U64_LIMIT
  {
    UpperSplits(w);
    hide Val;
    QuotientUnique(Val(w), Upper(w), w[0]);
    QuotientUnique(Upper(w), w[2] + U64_LIMIT * w[3], w[1]);
  }

  lemma QuotientUnique(x: nat, q: nat, r: U64)
    requires x == r + U64_LIMIT * q
    ensures x % U64_LIMIT == r && x / U64_LIMIT == q
  {
  }

  /** Where a balance moves to when the transaction uses `used` gas. The miner's write comes last, then the sender's. */
  function Moved(e: Setting, tx: Tx, used: U64, a: Address, balance: nat): int {
    var fee := Wrap(used as int * tx.gasPrice[0]);
    var refund := Wrap((tx.gasLimit as int - used) * tx.gasPrice[0]);
    if a == e.coinbase then (balance + fee) % U256_LIMIT
    else if a == tx.from then (AfterDebit(balance, Cost(tx)) + refund) % U256_LIMIT
    else if tx.value == ZERO then balance
    else if tx.to == Some(a) then (balance + Val(tx.value)) % U256_LIMIT
    else if tx.to == None && a == e.machine.createAddress(tx.from, tx.nonce) then Val(tx.value)
    else balance
  }

  /** Every balance after a transaction that went through. */
  lemma BalancesMove(e: Setting, s: Base, tx: Tx, a: Address)
    requires Passes(e, s, tx)
    ensures StoredBalance(After(e, s, tx), a) ==
            Moved(e, tx, SerialOutcome(e, s, tx).result.gasUsed, a, StoredBalance(s, a))
  {
    hide After, Refunded, Credited, BodyBalance, NonceIn, Val, Cost, AfterDebit, BalanceIn, SerialOutcome, GasUsed,
         Wrap;
    var view := PlainView(s);
    FinalWord(e, s, tx, Slot(a, 0));
    SlotsApart(e.coinbase, a);
    SlotsApart(tx.from, a);
    SlotsApart(a, tx.from);
    SlotsApart(a, Recipient(e.machine, tx));
    StoredSeen(s, a);
    UsedIs(e, s, tx);
    if a == e.coinbase {
      CreditVal(e.machine, tx, a, view);
    } else if a == tx.from {
      RefundedVal(e.machine, tx, view);
    } else if tx.value != ZERO && tx.to == Some(a) {
      ReceivedVal(tx, view);
    }
    StoredIs(After(e, s, tx), a);
    BodyOfCreation(tx, view);
  }

  lemma UsedIs(e: Setting, s: Base, tx: Tx)
    requires Passes(e, s, tx)
    ensures SerialOutcome(e, s, tx).result.gasUsed == GasUsed(e.machine, tx)
  {
    hide AllWrites, AllReads, SenderReads, WriteSetOf, TotalCost, NonceIn, BalanceIn;
  }

  lemma StoredIs(s: Base, a: Address)
    ensures Lookup(s, Slot(a, 0)).Some? ==> StoredBalance(s, a) == Val(Lookup(s, Slot(a, 0)).value)
    ensures Lookup(s, Slot(a, 0)).None? ==> StoredBalance(s, a) == 0
  {
  }

  lemma CreditVal(m: Machine, tx: Tx, coinbase: Address, view: View)
    ensures Val(Credited(m, tx, coinbase, view)) ==
            (Val(BalanceIn(view, coinbase)) + Wrap(GasUsed(m, tx) as int * tx.gasPrice[0])) % U256_LIMIT
  {
    hide Val, WrappingAdd, GasUsed, BalanceIn, Wrap;
    AddExact(BalanceIn(view, coinbase), MulPrice(tx, GasUsed(m, tx)));
    OneLimbVal(Wrap(GasUsed(m, tx) as int * tx.gasPrice[0]));
  }

  lemma RefundedVal(m: Machine, tx: Tx, view: View)
    ensures Val(Refunded(m, tx, view)) ==
            (AfterDebit(Val(BalanceIn(view, tx.from)), Cost(tx)) +
             Wrap((tx.gasLimit as int - GasUsed(m, tx)) * tx.gasPrice[0])) % U256_LIMIT
  {
    hide Val, WrappingAdd, GasUsed, BalanceIn, Wrap, Debited, AfterDebit, Cost;
    var left: int := tx.gasLimit as int - GasUsed(m, tx);
    DebitVal(tx, view);
    AddExact(Debited(tx, view), MulPrice(tx, Wrap(left)));
    WrapMul(left, tx.gasPrice[0]);
    OneLimbVal(Wrap(left * tx.gasPrice[0]));
  }

  lemma ReceivedVal(tx: Tx, view: View)
    requires tx.to.Some?
    ensures Val(BodyBalance(tx, view)) == (Val(BalanceIn(view, tx.to.value)) + Val(tx.value)) % U256_LIMIT
  {
    hide Val, WrappingAdd, BalanceIn;
    AddExact(BalanceIn(view, tx.to.value), tx.value);
  }

  lemma BodyOfCreation(tx: Tx, view: View)
    ensures tx.to.None? ==> BodyBalance(tx, view) == tx.value
  {
  }

  // ---------------------------------------------------------------- what is recorded

  lemma {:induction false} LastTracked(writes: seq<WriteOp>, k: StateKey)
    requires forall i :: 0 <= i < |writes| && writes[i].key == k ==> writes[i].tracked
    ensures var v := Values(writes, k);
            if v == [] then k !in WriteSetOf(writes)
            else k in WriteSetOf(writes) && WriteSetOf(writes)[k] == v[|v| - 1]
  {
    if writes != [] {
      LastTracked(writes[..|writes| - 1], k);
    }
  }

  lemma {:induction false} NoneTracked(writes: seq<WriteOp>, k: StateKey)
    requires forall i :: 0 <= i < |writes| && writes[i].key == k ==> !writes[i].tracked
    ensures k !in WriteSetOf(writes)
  {
    if writes != [] {
      NoneTracked(writes[..|writes| - 1], k);
    }
  }

  /** Only the code word escapes the write set. */
  lemma OnlyCodeUntracked(e: Setting, tx: Tx, view: View, i: nat)
    requires i < |AllWrites(e.machine, tx, e.coinbase, view)|
    ensures var w := AllWrites(e.machine, tx, e.coinbase, view)[i];
            w.tracked <==> !exists a :: w.key == Slot(a, 2)
  {
    hide WrappingAdd, SubLow, BalanceIn, NonceIn, Val;
    var w, r := AllWrites(e.machine, tx, e.coinbase, view)[i], Recipient(e.machine, tx);
    forall a ensures BalanceKey(w.key.address) != Slot(a, 2) && NonceKey(w.key.address) != Slot(a, 2) {
      SlotsApart(w.key.address, a);
    }
    assert w.tracked ==> w.key == BalanceKey(w.key.address) || w.key == NonceKey(w.key.address);
    assert !w.tracked ==> w.key == Slot(r, 2);
  }

  /** The write set holds the state left behind at every slot written but the code word's. */
  lemma WriteSetIsLeft(e: Setting, s: Base, tx: Tx, k: StateKey)
    requires Passes(e, s, tx)
    ensures var w, r := SerialOutcome(e, s, tx).result.writeSet, Recipient(e.machine, tx);
            && (k in w <==> k in {Slot(tx.from, 0), Slot(tx.from, 1), Slot(e.coinbase, 0)} ||
                            (tx.value != ZERO && k == Slot(r, 0)))
            && (k in w ==> w[k] == Lookup(After(e, s, tx), k))
  {
    hide AllWrites, WriteSetOf, Values, ApplyBase, Debited, Refunded, Credited, BodyBalance, NonceIn, Wrap, BodyWrites,
         SerialOutcome;
    var view, r := PlainView(s), Recipient(e.machine, tx);
    var writes := AllWrites(e.machine, tx, e.coinbase, view);
    SuccessWrites(e, s, tx);
    SuccessSets(e, s, tx);
    forall i | 0 <= i < |writes| ensures writes[i].tracked <==> !exists a :: writes[i].key == Slot(a, 2) {
      OnlyCodeUntracked(e, tx, view, i);
    }
    SlotsApart(tx.from, tx.from);
    SlotsApart(e.coinbase, e.coinbase);
    SlotsApart(r, r);
    if a: Address :| k == Slot(a, 2) {
      NoneTracked(writes, k);
      SlotsApart(tx.from, a);
      SlotsApart(e.coinbase, a);
      SlotsApart(r, a);
    } else {
      LastTracked(writes, k);
      ApplyBaseLookup(s, writes, k);
      AllValues(e, tx, view, k);
      BodyValues(e.machine, tx, view, k);
    }
  }

  lemma SuccessSets(e: Setting, s: Base, tx: Tx)
    requires Passes(e, s, tx)
    ensures var out := SerialOutcome(e, s, tx);
            out.result.writeSet == WriteSetOf(out.writes) &&
            out.result.readSet == AllReads(tx, e.coinbase, PlainView(s))
  {
    hide AllWrites, AllReads, SenderReads, WriteSetOf, GasUsed, TotalCost, NonceIn, BalanceIn;
  }

  /** The read set: the sender's slots always, the others only when the checks pass. */
  lemma ReadSetIs(e: Setting, s: Base, tx: Tx, k: StateKey)
    ensures var r := SerialOutcome(e, s, tx).result.readSet;
            && (k in r <==> k in {Slot(tx.from, 0), Slot(tx.from, 1)} ||
                            (Passes(e, s, tx) && (k == Slot(e.coinbase, 0) ||
                             (tx.value != ZERO && tx.to.Some? && k == Slot(tx.to.value, 0)))))
            && (k in r ==> r[k].0 == Lookup(s, k))
  {
    hide AllWrites, WriteSetOf, GasUsed, TotalCost, NonceIn, BalanceIn, Val;
    SlotsApart(tx.from, tx.from);
    SlotsApart(e.coinbase, e.coinbase);
    if tx.to.Some? {
      SlotsApart(tx.to.value, tx.to.value);
    }
    if k in SerialOutcome(e, s, tx).result.readSet {
      ReadsAreSeen(e, tx, PlainView(s), k);
    }
  }

  // ---------------------------------------------------------------- nonces over a run

  /** How many transactions of `a` went through. */
  function Passed(e: Setting, s: Base, txs: seq<Tx>, a: Address): nat {
    if txs == [] then 0 else
      var n := |txs| - 1;
      Passed(e, s, txs[..n], a) +
      (if txs[n].from == a && SerialResult(e, s, txs, n).status == Success then 1 else 0)
  }

  /** After any run an account's nonce has counted its transactions that went through. */
  lemma {:induction false} NonceCounts(e: Setting, s: Base, txs: seq<Tx>, a: Address)
    ensures StoredNonce(SerialState(e, s, txs), a) == Wrap(StoredNonce(s, a) as int + Passed(e, s, txs, a))
  {
    hide StoredNonce, Wrap, SerialOutcome, ApplyBase;
    if txs == [] {
      WrapSmall(StoredNonce(s, a));
    } else {
      hide SerialState;
      var n := |txs| - 1;
      SerialUnfolds(e, s, txs);
      NonceCounts(e, s, txs[..n], a);
      NonceMoves(e, SerialState(e, s, txs[..n]), txs[n], a);
      WrapAdd(StoredNonce(s, a) as int + Passed(e, s, txs[..n], a), 1);
    }
  }

  lemma {:induction false} PassedBetween(e: Setting, s: Base, txs: seq<Tx>, a: Address, i: nat, j: nat)
    requires i <= j <= |txs|
    ensures Passed(e, s, txs[..i], a) <= Passed(e, s, txs[..j], a) <= Passed(e, s, txs[..i], a) + (j - i)
  {
    hide SerialResult;
    if i < j {
      PassedBetween(e, s, txs, a, i, j - 1);
      assert txs[..j][..j - 1] == txs[..j - 1];
    }
  }

  /** No nonce of a sender is used twice within 2^64 transactions of a run. */
  lemma NonceUsedOnce(e: Setting, s: Base, txs: seq<Tx>, i: nat, j: nat)
    requires i < j < |txs| && txs[i].from == txs[j].from && txs[i].nonce == txs[j].nonce
    requires SerialResult(e, s, txs, i).status == Success && SerialResult(e, s, txs, j).status == Success
    ensures j - i >= U64_LIMIT
  {
    hide StoredNonce, Wrap, SerialState, SerialOutcome, After;
    var a := txs[i].from;
    NonceCounts(e, s, txs[..i], a);
    NonceCounts(e, s, txs[..j], a);
    NonceMoves(e, SerialState(e, s, txs[..i]), txs[i], a);
    NonceMoves(e, SerialState(e, s, txs[..j]), txs[j], a);
    PassedHere(e, s, txs, i);
    PassedBetween(e, s, txs, a, i + 1, j);
    PassedBetween(e, s, txs, a, i, j);
    WrapReturns(StoredNonce(s, a) as int + Passed(e, s, txs[..i], a),
                Passed(e, s, txs[..j], a) - Passed(e, s, txs[..i], a));
  }

  lemma PassedHere(e: Setting, s: Base, txs: seq<Tx>, i: nat)
    requires i < |txs| && SerialResult(e, s, txs, i).status == Success
    ensures Passed(e, s, txs[..i + 1], txs[i].from) == Passed(e, s, txs[..i], txs[i].from) + 1
  {
    hide SerialOutcome, SerialState;
    assert txs[..i + 1][..i] == txs[..i];
  }

  lemma WrapReturns(x: int, c: nat)
    requires Wrap(x) == Wrap(x + c) && c > 0
    ensures c >= U64_LIMIT
  {
  }
}
