/** Transaction execution: balances, nonces and gas. */
module Vm {
  import opened Common
  import opened Words
  import opened Versions
  import opened Results
  import opened Mvcc

  /** No recipient means contract creation. */
  datatype Tx = Tx(
    from: Address, to: Option<Address>, value: U256, gasLimit: U64, gasPrice: U256,
    nonce: U64, data: seq<Byte>, seqNo: U64)

  /** Deployed code, and the hash-derived address and code word of a creation. */
  datatype Machine = Machine(
    code: map<Address, seq<Byte>>, createAddress: (Address, U64) -> Address, codeWord: seq<Byte> -> U256)

  /** A write to the state; the code word of a creation bypasses the write set. */
  datatype WriteOp = WriteOp(key: StateKey, value: U256, tracked: bool)

  /** What a transaction sees of a key: value and version. */
  type View = StateKey -> (Option<U256>, U64)

  datatype Outcome = Outcome(result: ExecutionResult, writes: seq<WriteOp>)

  function BalanceKey(a: Address): StateKey {
    StateKey(a, FromU64(0))
  }

  function NonceKey(a: Address): StateKey {
    StateKey(a, FromU64(1))
  }

  function CodeKey(a: Address): StateKey {
    StateKey(a, FromU64(2))
  }

  function OrZero(v: Option<U256>): U256 {
    if v.Some? then v.value else ZERO
  }

  function BalanceIn(view: View, a: Address): U256 {
    OrZero(view(BalanceKey(a)).0)
  }

  function NonceIn(view: View, a: Address): U64 {
    OrZero(view(NonceKey(a)).0)[0]
  }

  function Less(a: U256, b: U256): bool {
    Val(a) < Val(b)
  }

  /** Who receives the value: the callee, or the contract being created. */
  function Recipient(m: Machine, tx: Tx): Address {
    if tx.to.Some? then tx.to.value else m.createAddress(tx.from, tx.nonce)
  }

  // ---------------------------------------------------------------- the steps

  function MulPrice(tx: Tx, gas: U64): U256 {
    FromU64(Wrap(gas as int * tx.gasPrice[0]))
  }

  function TotalCost(tx: Tx): U256 {
    WrappingAdd(tx.value, MulPrice(tx, tx.gasLimit))
  }

  function GasUsed(m: Machine, tx: Tx): U64 {
    match tx.to
    case Some(to) =>
      if to in m.code && m.code[to] != [] then Min(Wrap(21000 + |tx.data| * 16), tx.gasLimit) else 21000
    case None => Min(Wrap(32000 + |tx.data| * 200), tx.gasLimit)
  }

  /** Writes of the call or creation itself. */
  function BodyWrites(m: Machine, tx: Tx, view: View): seq<WriteOp> {
    match tx.to
    case Some(to) =>
      if tx.value == ZERO then []
      else [WriteOp(BalanceKey(to), WrappingAdd(BalanceIn(view, to), tx.value), true)]
    case None =>
      var address := m.createAddress(tx.from, tx.nonce);
      (if tx.value == ZERO then [] else [WriteOp(BalanceKey(address), tx.value, true)]) +
      [WriteOp(CodeKey(address), m.codeWord(tx.data), false)]
  }

  function Debited(tx: Tx, view: View): U256 {
    SubLow(BalanceIn(view, tx.from), TotalCost(tx))
  }

  function Refunded(m: Machine, tx: Tx, view: View): U256 {
    WrappingAdd(Debited(tx, view), MulPrice(tx, Wrap(tx.gasLimit as int - GasUsed(m, tx))))
  }

  function Credited(m: Machine, tx: Tx, coinbase: Address, view: View): U256 {
    WrappingAdd(BalanceIn(view, coinbase), MulPrice(tx, GasUsed(m, tx)))
  }

  /** All writes of a transaction that goes through, in the order they are made. */
  function AllWrites(m: Machine, tx: Tx, coinbase: Address, view: View): seq<WriteOp> {
    [WriteOp(BalanceKey(tx.from), Debited(tx, view), true),
     WriteOp(NonceKey(tx.from), FromU64(Wrap(NonceIn(view, tx.from) as int + 1)), true)] +
    BodyWrites(m, tx, view) +
    [WriteOp(BalanceKey(tx.from), Refunded(m, tx, view), true),
     WriteOp(BalanceKey(coinbase), Credited(m, tx, coinbase, view), true)]
  }

  function SenderReads(tx: Tx, view: View): ReadSet {
    map[BalanceKey(tx.from) := view(BalanceKey(tx.from))][NonceKey(tx.from) := view(NonceKey(tx.from))]
  }

  function AllReads(tx: Tx, coinbase: Address, view: View): ReadSet {
    var r := SenderReads(tx, view);
    var r2 := if tx.to.Some? && tx.value != ZERO then r[BalanceKey(tx.to.value) := view(BalanceKey(tx.to.value))]
        else r;
    r2[BalanceKey(coinbase) := view(BalanceKey(coinbase))]
  }

  /** The write set: the last tracked value per key. */
  function WriteSetOf(writes: seq<WriteOp>): WriteSet {
    if writes == [] then map[] else
      var last := writes[|writes| - 1];
      var before := WriteSetOf(writes[..|writes| - 1]);
      if last.tracked then before[last.key := Some(last.value)] else before
  }

  function Failed(tx: Tx, readSet: ReadSet, e: VmError): Outcome {
    Outcome(ExecutionResult(tx.seqNo, Failure, readSet, map[], tx.gasLimit, Error(e)), [])
  }

  /** A whole transaction as a function of what it sees. */
  function Execute(m: Machine, tx: Tx, coinbase: Address, view: View): Outcome {
    if NonceIn(view, tx.from) != tx.nonce then
      Failed(tx, SenderReads(tx, view), InvalidNonce(NonceIn(view, tx.from), tx.nonce))
    else if Less(BalanceIn(view, tx.from), TotalCost(tx)) then
      Failed(tx, SenderReads(tx, view), InsufficientBalance)
    else
      var writes := AllWrites(m, tx, coinbase, view);
      var output := if tx.to.Some? then [] else m.createAddress(tx.from, tx.nonce);
      Outcome(
        ExecutionResult(tx.seqNo, Success, AllReads(tx, coinbase, view), WriteSetOf(writes), GasUsed(m, tx),
                        Bytes(output)),
        writes)
  }

  // ---------------------------------------------------------------- on the multi-version state

  /** The chains after the writes of transaction `s`. */
  function Apply(search: SearchFn, d: Data, s: U64, writes: seq<WriteOp>): Data {
    if writes == [] then d else
      var last := writes[|writes| - 1];
      Written(search, Apply(search, d, s, writes[..|writes| - 1]), last.key, s, Some(last.value))
  }

  /** What transaction `s` sees. */
  function ViewAt(d: Data, base: Base, s: U64): View {
    (k: StateKey) => ReadAt(d, base, k, s)
  }

  lemma ApplyAppend(search: SearchFn, d: Data, s: U64, writes: seq<WriteOp>, w: WriteOp)
    ensures Apply(search, d, s, writes + [w]) == Written(search, Apply(search, d, s, writes), w.key, s, Some(w.value))
  {
    assert (writes + [w])[..|writes|] == writes;
  }

  lemma WriteSetAppend(writes: seq<WriteOp>, w: WriteOp)
    ensures WriteSetOf(writes + [w]) ==
            if w.tracked then WriteSetOf(writes)[w.key := Some(w.value)] else WriteSetOf(writes)
  {
    assert (writes + [w])[..|writes|] == writes;
  }

  /** A transaction's own writes do not change what it sees. */
  lemma {:induction false} OwnWritesInvisible(search: SearchFn, d: Data, base: Base, s: U64, writes: seq<WriteOp>,
                                              k: StateKey)
    ensures ReadAt(Apply(search, d, s, writes), base, k, s) == ReadAt(d, base, k, s)
  {
    if writes != [] {
      var rest, last := writes[..|writes| - 1], writes[|writes| - 1];
      OwnWritesInvisible(search, d, base, s, rest, k);
      var c := ChainOf(Apply(search, d, s, rest), last.key);
      OwnWritesUnseen(search, c, Version(s, Some(last.value), Pending), s);
    }
  }

  /** One run of the machine against the shared state: its scratch read and write sets, and what it wrote so far. */
  class Execution {
    const state: MultiVersionState
    const tx: Tx
    var readSet: ReadSet
    var writeSet: WriteSet
    ghost var writes: seq<WriteOp>
    ghost const d: Data
    ghost const base: Base

    ghost predicate Valid()
      reads this, state, state.jmt
    {
      && state.Valid()
      && state.data == Apply(state.search, d, tx.seqNo, writes) && state.base == base
      && writeSet == WriteSetOf(writes)
    }

    ghost function Sees(): View
      reads this
    {
      ViewAt(d, base, tx.seqNo)
    }

    constructor (state: MultiVersionState, tx: Tx)
      requires state.Valid()
      ensures Valid() && this.state == state && this.tx == tx && readSet == map[] && writes == []
      ensures d == state.data && base == state.base
    {
      this.state, this.tx := state, tx;
      readSet, writeSet, writes := map[], map[], [];
      d, base := state.data, state.base;
    }

    method Read(k: StateKey) returns (v: U256)
      requires Valid()
      modifies this`readSet
      ensures Valid() && v == OrZero(Sees()(k).0) && readSet == old(readSet)[k := Sees()(k)]
    {
      hide Apply, ReadAt;
      OwnWritesInvisible(state.search, d, base, tx.seqNo, writes, k);
      var value;
      value, readSet := state.ReadTracked(k, tx.seqNo, readSet);
      v := OrZero(value);
    }

    method Write(k: StateKey, v: U256, tracked: bool)
      requires Valid()
      modifies this`writeSet, this`writes, state`data
      ensures Valid() && writes == old(writes) + [WriteOp(k, v, tracked)]
    {
      hide Apply, Written, WriteSetOf, MultiVersionState.Valid;
      ApplyAppend(state.search, d, tx.seqNo, writes, WriteOp(k, v, tracked));
      WriteSetAppend(writes, WriteOp(k, v, tracked));
      if tracked {
        writeSet := state.WriteTracked(k, tx.seqNo, Some(v), writeSet);
      } else {
        state.Write(k, tx.seqNo, Some(v));
      }
      writes := writes + [WriteOp(k, v, tracked)];
    }
  }

  /** `execute_call` and `execute_create`: the value transfer, then the gas. */
  method ExecuteBody(m: Machine, x: Execution) returns (gasUsed: U64, output: seq<Byte>)
    requires x.Valid()
    modifies x`readSet, x`writeSet, x`writes, x.state`data
    ensures x.Valid() && x.writes == old(x.writes) + BodyWrites(m, x.tx, x.Sees())
    ensures gasUsed == GasUsed(m, x.tx)
    ensures output == if x.tx.to.Some? then [] else m.createAddress(x.tx.from, x.tx.nonce)
    ensures x.readSet == if x.tx.to.Some? && x.tx.value != ZERO
                         then old(x.readSet)[BalanceKey(x.tx.to.value) := x.Sees()(BalanceKey(x.tx.to.value))]
                         else old(x.readSet)
  {
    hide Execution.Valid, WrappingAdd, BalanceKey, CodeKey, ViewAt;
    var tx := x.tx;
    ghost var before := x.writes;
    if tx.to.Some? {
      var to := tx.to.value;
      if tx.value != ZERO {
        var balance := x.Read(BalanceKey(to));
        x.Write(BalanceKey(to), WrappingAdd(balance, tx.value), true);
      }
      if to in m.code && m.code[to] != [] {
        gasUsed := Min(Wrap(21000 + |tx.data| * 16), tx.gasLimit);
      } else {
        gasUsed := 21000;
      }
      output := [];
    } else {
      var address := m.createAddress(tx.from, tx.nonce);
      if tx.value != ZERO {
        x.Write(BalanceKey(address), tx.value, true);
      }
      x.Write(CodeKey(address), m.codeWord(tx.data), false);
      gasUsed := Min(Wrap(32000 + |tx.data| * 200), tx.gasLimit);
      output := address;
    }
  }

  /** The part of `execute_inner` after its two checks. */
  method Settle(m: Machine, x: Execution, coinbase: Address, balance: U256, nonce: U64)
                returns (gasUsed: U64, output: seq<Byte>)
    requires x.Valid() && x.writes == [] && x.readSet == SenderReads(x.tx, x.Sees())
    requires balance == BalanceIn(x.Sees(), x.tx.from) && nonce == NonceIn(x.Sees(), x.tx.from)
    modifies x`readSet, x`writeSet, x`writes, x.state`data
    ensures x.Valid() && x.writes == AllWrites(m, x.tx, coinbase, x.Sees())
    ensures x.readSet == AllReads(x.tx, coinbase, x.Sees())
    ensures gasUsed == GasUsed(m, x.tx)
    ensures output == if x.tx.to.Some? then [] else m.createAddress(x.tx.from, x.tx.nonce)
  {
    hide Execution.Valid, WrappingAdd, SubLow, BalanceKey, NonceKey, CodeKey, ViewAt, BodyWrites, SenderReads, GasUsed,
         MulPrice, TotalCost;
    var tx := x.tx;
    var debited := SubLow(balance, TotalCost(tx));
    x.Write(BalanceKey(tx.from), debited, true);
    x.Write(NonceKey(tx.from), FromU64(Wrap(nonce as int + 1)), true);
    gasUsed, output := ExecuteBody(m, x);
    var refund := MulPrice(tx, Wrap(tx.gasLimit as int - gasUsed));
    x.Write(BalanceKey(tx.from), WrappingAdd(debited, refund), true);
    var coinbaseBalance := x.Read(BalanceKey(coinbase));
    x.Write(BalanceKey(coinbase), WrappingAdd(coinbaseBalance, MulPrice(tx, gasUsed)), true);
  }

  /** `execute`: runs one transaction against the shared state. */
  method ExecuteTx(m: Machine, tx: Tx, state: MultiVersionState, coinbase: Address) returns (r: ExecutionResult)
    requires state.Valid()
    modifies state`data
    ensures state.Valid()
    ensures r == Execute(m, tx, coinbase, ViewAt(old(state.data), state.base, tx.seqNo)).result
    ensures state.data == Apply(state.search, old(state.data), tx.seqNo,
                                Execute(m, tx, coinbase, ViewAt(old(state.data), state.base, tx.seqNo)).writes)
  {
    hide WrappingAdd, SubLow, BalanceKey, NonceKey, ViewAt, Val, Apply, WriteSetOf, AllWrites, AllReads, TotalCost,
         MultiVersionState.Valid;
    var x := new Execution(state, tx);
    ApplyNothing(state.search, state.data, tx.seqNo);
    var balance := x.Read(BalanceKey(tx.from));
    var nonceWord := x.Read(NonceKey(tx.from));
    var nonce := nonceWord[0];
    if nonce != tx.nonce {
      return ExecutionResult(tx.seqNo, Failure, x.readSet, x.writeSet, tx.gasLimit,
          Error(InvalidNonce(nonce, tx.nonce)));
    }
    var order := Compare(balance, TotalCost(tx));
    if order < 0 {
      return ExecutionResult(tx.seqNo, Failure, x.readSet, x.writeSet, tx.gasLimit, Error(InsufficientBalance));
    }
    var gasUsed, output := Settle(m, x, coinbase, balance, nonce);
    r := ExecutionResult(tx.seqNo, Success, x.readSet, x.writeSet, gasUsed, Bytes(output));
  }

  lemma ApplyNothing(search: SearchFn, d: Data, s: U64)
    ensures Apply(search, d, s, []) == d && WriteSetOf([]) == map[]
  {
  }
}
