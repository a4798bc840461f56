/** Serial execution on a plain map, and why in-order speculation agrees with it. */
module Serial {
  import opened Common
  import opened Words
  import opened Versions
  import opened Results
  import opened Conflict
  import opened Mvcc
  import opened Vm

  /** What one machine and one block fix for all transactions. */
  datatype Setting = Setting(machine: Machine, coinbase: Address)

  function PlainView(s: Base): View {
    (k: StateKey) => (Lookup(s, k), 0)
  }

  function ApplyBase(s: Base, writes: seq<WriteOp>): Base {
    if writes == [] then s else
      var last := writes[|writes| - 1];
      ApplyBase(s, writes[..|writes| - 1])[last.key := last.value]
  }

  function SerialOutcome(e: Setting, s: Base, tx: Tx): Outcome {
    Execute(e.machine, tx, e.coinbase, PlainView(s))
  }

  /** One transaction after the other on a plain map: the reference. */
  function SerialState(e: Setting, s: Base, txs: seq<Tx>): Base {
    if txs == [] then s else
      var before := SerialState(e, s, txs[..|txs| - 1]);
      ApplyBase(before, SerialOutcome(e, before, txs[|txs| - 1]).writes)
  }

  function SerialResult(e: Setting, s: Base, txs: seq<Tx>, i: nat): ExecutionResult
    requires i < |txs|
  {
    SerialOutcome(e, SerialState(e, s, txs[..i]), txs[i]).result
  }

  /** A result without the version numbers of its reads, which a plain map does not have. */
  function Plain(r: ExecutionResult): ExecutionResult {
    r.(readSet := PlainReads(r.readSet))
  }

  function PlainReads(r: ReadSet): ReadSet {
    map k | k in r :: (r[k].0, 0)
  }

  // ---------------------------------------------------------------- views that agree

  ghost predicate SameValues(a: View, b: View) {
    forall k :: a(k).0 == b(k).0
  }

  lemma SameReads(tx: Tx, coinbase: Address, a: View, b: View)
    requires SameValues(a, b)
    ensures PlainReads(SenderReads(tx, a)) == PlainReads(SenderReads(tx, b))
    ensures PlainReads(AllReads(tx, coinbase, a)) == PlainReads(AllReads(tx, coinbase, b))
  {
  }

  lemma SameWrites(e: Setting, tx: Tx, a: View, b: View)
    requires SameValues(a, b)
    ensures BalanceIn(a, tx.from) == BalanceIn(b, tx.from) && NonceIn(a, tx.from) == NonceIn(b, tx.from)
    ensures AllWrites(e.machine, tx, e.coinbase, a) == AllWrites(e.machine, tx, e.coinbase, b)
  {
    hide WrappingAdd, SubLow, MulPrice, TotalCost, GasUsed;
    assert BalanceIn(a, e.coinbase) == BalanceIn(b, e.coinbase);
    assert BodyWrites(e.machine, tx, a) == BodyWrites(e.machine, tx, b);
  }

  /** Execution depends on the values seen, not on their versions. */
  lemma ExecuteSame(e: Setting, tx: Tx, a: View, b: View)
    requires SameValues(a, b)
    ensures var x, y := Execute(e.machine, tx, e.coinbase, a), Execute(e.machine, tx, e.coinbase, b);
            Plain(x.result) == Plain(y.result) && x.writes == y.writes
  {
    SameWrites(e, tx, a, b);
    SameReads(tx, e.coinbase, a, b);
    hide SenderReads, AllReads, AllWrites, TotalCost, GasUsed, BalanceIn, NonceIn, WriteSetOf, SameValues, Less,
         PlainReads;
  }

  // ---------------------------------------------------------------- writes to one key

  function Values(writes: seq<WriteOp>, k: StateKey): seq<Option<U256>> {
    if writes == [] then [] else
      var last := writes[|writes| - 1];
      var before := Values(writes[..|writes| - 1], k);
      if last.key == k then before + [Some(last.value)] else before
  }

  lemma {:induction false} ApplyChain(search: SearchFn, d: Data, s: U64, writes: seq<WriteOp>, k: StateKey)
    ensures ChainOf(Apply(search, d, s, writes), k) == AddAll(search, ChainOf(d, k), s, Values(writes, k))
  {
    if writes != [] {
      var rest, last := writes[..|writes| - 1], writes[|writes| - 1];
      ApplyChain(search, d, s, rest, k);
      if last.key == k {
        var v := Values(writes, k);
        assert v[..|v| - 1] == Values(rest, k);
      }
    }
  }

  lemma {:induction false} ApplyBaseLookup(s: Base, writes: seq<WriteOp>, k: StateKey)
    ensures var v := Values(writes, k);
            Lookup(ApplyBase(s, writes), k) == if v == [] then Lookup(s, k) else v[|v| - 1]
  {
    if writes != [] {
      ApplyBaseLookup(s, writes[..|writes| - 1], k);
    }
  }

  lemma {:induction false} TrackedAreWritten(writes: seq<WriteOp>, k: StateKey)
    ensures k in WriteSetOf(writes) ==> Values(writes, k) != []
  {
    if writes != [] {
      TrackedAreWritten(writes[..|writes| - 1], k);
    }
  }

  /** All writes to a key after its first write the same value: then the last write is sure to show. */
  ghost predicate Settled(values: seq<Option<U256>>) {
    forall i :: 1 <= i < |values| ==> values[i] == values[|values| - 1]
  }

  ghost predicate AllSettled(writes: seq<WriteOp>) {
    forall k :: Settled(Values(writes, k))
  }

  lemma {:induction false} ValuesConcat(a: seq<WriteOp>, b: seq<WriteOp>, k: StateKey)
    ensures Values(a + b, k) == Values(a, k) + Values(b, k)
  {
    if b == [] {
      assert a + b == a;
    } else {
      ValuesConcat(a, b[..|b| - 1], k);
      assert (a + b)[..|a + b| - 1] == a + b[..|b| - 1];
    }
  }

  lemma ValuesOne(w: WriteOp, k: StateKey)
    ensures Values([w], k) == if w.key == k then [Some(w.value)] else []
  {
    assert [w][..0] == [];
  }

  lemma KeysApart(a: Address, b: Address)
    ensures BalanceKey(a) != NonceKey(b) && BalanceKey(a) != CodeKey(b) && NonceKey(a) != CodeKey(b)
    ensures BalanceKey(a) == BalanceKey(b) ==> a == b
  {
    assert FromU64(0)[0] == 0 && FromU64(1)[0] == 1 && FromU64(2)[0] == 2;
  }

  // ---------------------------------------------------------------- which transactions settle

  /** What the call or creation sets the recipient's balance to. */
  function BodyBalance(tx: Tx, view: View): U256 {
    if tx.to.Some? then WrappingAdd(BalanceIn(view, tx.to.value), tx.value) else tx.value
  }

  /** A mining sender's refund and credit agree, and so do a self-payer's credit and refund. */
  predicate LastWritesAgree(e: Setting, tx: Tx, view: View) {
    && (tx.from == e.coinbase ==> Refunded(e.machine, tx, view) == Credited(e.machine, tx, e.coinbase, view))
    && (tx.value != ZERO && Recipient(e.machine, tx) == tx.from ==>
        BodyBalance(tx, view) == Refunded(e.machine, tx, view))
  }

  function ValueIf(hit: bool, w: U256): seq<Option<U256>> {
    if hit then [Some(w)] else []
  }

  lemma BodyValues(m: Machine, tx: Tx, view: View, k: StateKey)
    ensures var r := Recipient(m, tx);
            Values(BodyWrites(m, tx, view), k) ==
            ValueIf(tx.value != ZERO && k == BalanceKey(r), BodyBalance(tx, view)) +
            ValueIf(tx.to.None? && k == CodeKey(r), m.codeWord(tx.data))
  {
    hide WrappingAdd, BalanceIn, BalanceKey, CodeKey, Values;
    var body := BodyWrites(m, tx, view);
    NoValues(k);
    if body != [] {
      ValuesOne(body[0], k);
      if |body| == 1 {
        assert body == [body[0]];
      } else {
        assert body == [body[0]] + [body[1]];
        ValuesOne(body[1], k);
        ValuesConcat([body[0]], [body[1]], k);
      }
    }
  }

  lemma NoValues(k: StateKey)
    ensures Values([], k) == []
  {
  }

  lemma PairValues(v: WriteOp, w: WriteOp, k: StateKey)
    ensures Values([v, w], k) == ValueIf(v.key == k, v.value) + ValueIf(w.key == k, w.value)
  {
    hide Values;
    assert [v, w] == [v] + [w];
    ValuesConcat([v], [w], k);
    ValuesOne(v, k);
    ValuesOne(w, k);
  }

  /** All values one transaction writes to a key, in order. */
  lemma AllValues(e: Setting, tx: Tx, view: View, k: StateKey)
    ensures var m, own := e.machine, k == BalanceKey(tx.from);
            Values(AllWrites(m, tx, e.coinbase, view), k) ==
            ValueIf(own, Debited(tx, view)) +
            ValueIf(k == NonceKey(tx.from), FromU64(Wrap(NonceIn(view, tx.from) as int + 1))) +
            Values(BodyWrites(m, tx, view), k) +
            ValueIf(own, Refunded(m, tx, view)) +
                    ValueIf(k == BalanceKey(e.coinbase), Credited(m, tx, e.coinbase, view))
  {
    hide BodyWrites, Debited, Refunded, Credited, NonceKey, BalanceKey, Values, NonceIn, Wrap;
    var w := AllWrites(e.machine, tx, e.coinbase, view);
    var body := BodyWrites(e.machine, tx, view);
    var head, tail := [w[0], w[1]], [w[|w| - 2], w[|w| - 1]];
    assert w == head + body + tail;
    ValuesConcat(head + body, tail, k);
    ValuesConcat(head, body, k);
    PairValues(w[0], w[1], k);
    PairValues(w[|w| - 2], w[|w| - 1], k);
  }

  lemma SettledUpToTwo(values: seq<Option<U256>>)
    requires |values| <= 2
    ensures Settled(values)
  {
  }

  /** Other keys than the sender's balance are written at most twice. */
  lemma OthersSettle(e: Setting, tx: Tx, view: View, k: StateKey)
    requires k != BalanceKey(tx.from)
    ensures Settled(Values(AllWrites(e.machine, tx, e.coinbase, view), k))
  {
    hide AllWrites, BodyWrites, Debited, Refunded, Credited, NonceKey, BalanceKey, CodeKey, Values, NonceIn, Settled,
         WrappingAdd;
    var r := Recipient(e.machine, tx);
    AllValues(e, tx, view, k);
    BodyValues(e.machine, tx, view, k);
    KeysApart(r, tx.from);
    KeysApart(r, r);
    KeysApart(e.coinbase, tx.from);
    KeysApart(e.coinbase, r);
    KeysApart(tx.from, r);
    SettledUpToTwo(Values(AllWrites(e.machine, tx, e.coinbase, view), k));
  }

  /** What becomes of the sender's balance. */
  lemma SenderValues(e: Setting, tx: Tx, view: View)
    ensures Values(AllWrites(e.machine, tx, e.coinbase, view), BalanceKey(tx.from)) ==
            [Some(Debited(tx, view))] +
            ValueIf(tx.value != ZERO && Recipient(e.machine, tx) == tx.from, BodyBalance(tx, view)) +
            [Some(Refunded(e.machine, tx, view))] +
            ValueIf(tx.from == e.coinbase, Credited(e.machine, tx, e.coinbase, view))
  {
    hide AllWrites, BodyWrites, Debited, Refunded, Credited, NonceKey, BalanceKey, CodeKey, Values, NonceIn,
         BodyBalance;
    var r, k := Recipient(e.machine, tx), BalanceKey(tx.from);
    AllValues(e, tx, view, k);
    BodyValues(e.machine, tx, view, k);
    KeysApart(tx.from, tx.from);
    KeysApart(tx.from, r);
    KeysApart(r, tx.from);
    KeysApart(e.coinbase, tx.from);
  }

  lemma SenderSettles(e: Setting, tx: Tx, view: View)
    ensures Settled(Values(AllWrites(e.machine, tx, e.coinbase, view), BalanceKey(tx.from))) <==>
            LastWritesAgree(e, tx, view)
  {
    hide AllWrites, Debited, Refunded, Credited, BalanceKey, Values, BodyBalance, Settled, ValueIf;
    SenderValues(e, tx, view);
    SettledShapes(Debited(tx, view), BodyBalance(tx, view), Refunded(e.machine, tx, view),
                  Credited(e.machine, tx, e.coinbase, view),
                  tx.value != ZERO && Recipient(e.machine, tx) == tx.from, tx.from == e.coinbase);
  }

  lemma SettledShapes(first: U256, body: U256, refund: U256, credit: U256, paid: bool, mined: bool)
    ensures var values := [Some(first)] + ValueIf(paid, body) + [Some(refund)] + ValueIf(mined, credit);
            Settled(values) <==> (mined ==> refund == credit) && (paid ==> body == refund)
  {
    var values := [Some(first)] + ValueIf(paid, body) + [Some(refund)] + ValueIf(mined, credit);
    var last := values[|values| - 1];
    assert values[1] == if paid then Some(body) else Some(refund);
    if paid {
      assert values[2] == Some(refund);
    }
    assert last == if mined then Some(credit) else Some(refund);
    assert |values| <= 4 && (|values| == 4 ==> values[3] == last);
  }

  /** The checks before anything is written. */
  predicate GoesThrough(s: Base, tx: Tx) {
    var view := PlainView(s);
    NonceIn(view, tx.from) == tx.nonce && !Less(BalanceIn(view, tx.from), TotalCost(tx))
  }

  /** In state `s` the transaction fails a check, or its last writes to the sender's balance agree. */
  predicate SettlesIn(e: Setting, s: Base, tx: Tx) {
    GoesThrough(s, tx) ==> LastWritesAgree(e, tx, PlainView(s))
  }

  /** Whether all writes to a key after its first write the same value can be told before executing. */
  lemma SettledExactly(e: Setting, s: Base, tx: Tx)
    ensures AllSettled(SerialOutcome(e, s, tx).writes) <==> SettlesIn(e, s, tx)
  {
    hide AllWrites, AllReads, SenderReads, TotalCost, WriteSetOf, Less, NonceIn, BalanceIn, Values, Settled,
         LastWritesAgree, GasUsed;
    var view, writes := PlainView(s), SerialOutcome(e, s, tx).writes;
    if GoesThrough(s, tx) {
      assert writes == AllWrites(e.machine, tx, e.coinbase, view);
      SenderSettles(e, tx, view);
      forall k | k != BalanceKey(tx.from) ensures Settled(Values(writes, k)) {
        OthersSettle(e, tx, view, k);
      }
    } else {
      assert writes == [];
      forall k ensures Settled(Values(writes, k)) {
        NoValues(k);
        SettledUpToTwo([]);
      }
    }
  }

  // ---------------------------------------------------------------- the chains shadow the serial state

  /** A chain whose newest version, if any, is live and holds the serial value; all of it older than `bound`. */
  ghost predicate Shadows(c: Chain, below: Option<U256>, value: Option<U256>, bound: nat) {
    && Descending(c)
    && (forall i :: 0 <= i < |c| ==> c[i].seqNo < bound)
    && (if c == [] then below == value else c[0].status != Aborted && c[0].value == value)
  }

  ghost predicate Synced(d: Data, base: Base, s: Base, bound: nat) {
    forall k :: Shadows(ChainOf(d, k), Lookup(base, k), Lookup(s, k), bound)
  }

  lemma SyncedReads(d: Data, base: Base, s: Base, bound: nat, reader: U64)
    requires Synced(d, base, s, bound) && bound <= reader
    ensures forall k :: ReadAt(d, base, k, reader).0 == Lookup(s, k)
  {
    forall k ensures ReadAt(d, base, k, reader).0 == Lookup(s, k) {
      assert Shadows(ChainOf(d, k), Lookup(base, k), Lookup(s, k), bound);
    }
  }

  lemma AddNothing(search: SearchFn, c: Chain, s: U64)
    ensures AddAll(search, c, s, []) == c
  {
  }

  lemma ShadowsAfter(search: SearchFn, c: Chain, below: Option<U256>, value: Option<U256>, bound: nat, s: U64,
                     values: seq<Option<U256>>)
    requires SearchOk(search) && Shadows(c, below, value, bound) && bound <= s && Settled(values)
    ensures Shadows(AddAll(search, c, s, values), below, if values == [] then value else values[|values| - 1], s + 1)
  {
    hide SearchOk, AddAll;
    if values == [] {
      AddNothing(search, c, s);
    } else {
      FrontIsLater(search, c, s, values);
      var c2 := AddAll(search, c, s, values);
      StackedDescends(c2, c, s, |values|);
      assert forall i :: |values| <= i < |c2| ==> c2[i] == c[i - |values|];
    }
  }

  /** Executing the next transaction keeps the chains in step with the serial state. */
  lemma ApplySyncs(search: SearchFn, d: Data, base: Base, s: Base, bound: nat, seqNo: U64, writes: seq<WriteOp>)
    requires SearchOk(search) && Synced(d, base, s, bound) && bound <= seqNo && AllSettled(writes)
    ensures Synced(Apply(search, d, seqNo, writes), base, ApplyBase(s, writes), seqNo + 1)
  {
    hide Shadows, Settled, SearchOk;
    forall k ensures Shadows(ChainOf(Apply(search, d, seqNo, writes), k), Lookup(base, k),
        Lookup(ApplyBase(s, writes), k), seqNo + 1) {
      ApplyChain(search, d, seqNo, writes, k);
      ApplyBaseLookup(s, writes, k);
      ShadowsAfter(search, ChainOf(d, k), Lookup(base, k), Lookup(s, k), bound, seqNo, Values(writes, k));
    }
  }

  // ---------------------------------------------------------------- one in-order pass

  /** Chains and results after executing the transactions one after the other on the shared state. */
  ghost function PassData(search: SearchFn, e: Setting, d: Data, base: Base, txs: seq<Tx>): Data {
    if txs == [] then d else
      var before, tx := PassData(search, e, d, base, txs[..|txs| - 1]), txs[|txs| - 1];
      Apply(search, before, tx.seqNo, Execute(e.machine, tx, e.coinbase, ViewAt(before, base, tx.seqNo)).writes)
  }

  ghost function PassOutcome(search: SearchFn, e: Setting, d: Data, base: Base, txs: seq<Tx>, i: nat): Outcome
    requires i < |txs|
  {
    Execute(e.machine, txs[i], e.coinbase, ViewAt(PassData(search, e, d, base, txs[..i]), base, txs[i].seqNo))
  }

  ghost function PassResults(search: SearchFn, e: Setting, d: Data, base: Base,
                             txs: seq<Tx>): (rs: seq<ExecutionResult>)
    ensures |rs| == |txs| && forall i :: 0 <= i < |txs| ==> rs[i] == PassOutcome(search, e, d, base, txs, i).result
  {
    seq(|txs|, i requires 0 <= i < |txs| => PassOutcome(search, e, d, base, txs, i).result)
  }

  ghost predicate InOrder(txs: seq<Tx>) {
    forall i, j :: 0 <= i < j < |txs| ==> txs[i].seqNo < txs[j].seqNo
  }

  /** When its turn comes in serial execution, transaction `i` settles. */
  ghost predicate SettlesAt(e: Setting, base: Base, txs: seq<Tx>, i: nat)
    requires i < |txs|
  {
    SettlesIn(e, SerialState(e, base, txs[..i]), txs[i])
  }

  ghost predicate Settles(e: Setting, base: Base, txs: seq<Tx>) {
    forall i :: 0 <= i < |txs| ==> SettlesAt(e, base, txs, i)
  }

  function Bound(txs: seq<Tx>): nat {
    if txs == [] then 0 else txs[|txs| - 1].seqNo + 1
  }

  lemma OrderBelow(txs: seq<Tx>, i: nat)
    requires InOrder(txs) && i < |txs|
    ensures InOrder(txs[..i]) && Bound(txs[..i]) <= txs[i].seqNo
  {
  }

  lemma SettlesBelow(e: Setting, base: Base, txs: seq<Tx>, n: nat)
    requires Settles(e, base, txs) && n <= |txs|
    ensures Settles(e, base, txs[..n])
  {
    hide SettlesIn, SerialState;
    forall i | 0 <= i < n ensures SettlesAt(e, base, txs[..n], i) {
      assert SettlesAt(e, base, txs, i);
      assert txs[..n][..i] == txs[..i];
    }
  }

  /** The pass keeps the chains in step with serial execution. */
  lemma {:induction false} PassSyncs(search: SearchFn, e: Setting, base: Base, txs: seq<Tx>)
    requires SearchOk(search) && InOrder(txs) && Settles(e, base, txs)
    ensures Synced(PassData(search, e, map[], base, txs), base, SerialState(e, base, txs), Bound(txs))
  {
    hide SearchOk, InOrder, SettlesIn, Synced, PassData, SerialState, Apply, Execute;
    if txs == [] {
      PassStarts(search, e, base);
      SyncedAtStart(base);
    } else {
      var n := |txs| - 1;
      var rest, tx := txs[..n], txs[n];
      OrderBelow(txs, n);
      SettlesBelow(e, base, txs, n);
      assert SettlesAt(e, base, txs, n);
      PassSyncs(search, e, base, rest);
      var d, s := PassData(search, e, map[], base, rest), SerialState(e, base, rest);
      PassStep(search, e, d, base, s, Bound(rest), tx);
      PassUnfolds(search, e, base, txs);
      SerialUnfolds(e, base, txs);
    }
  }

  lemma PassUnfolds(search: SearchFn, e: Setting, base: Base, txs: seq<Tx>)
    requires txs != []
    ensures var n := |txs| - 1;
            PassData(search, e, map[], base, txs) ==
            Apply(search, PassData(search, e, map[], base, txs[..n]), txs[n].seqNo,
                  PassOutcome(search, e, map[], base, txs, n).writes)
  {
  }

  lemma PassStarts(search: SearchFn, e: Setting, base: Base)
    ensures PassData(search, e, map[], base, []) == map[] && SerialState(e, base, []) == base
  {
  }

  lemma SerialUnfolds(e: Setting, base: Base, txs: seq<Tx>)
    requires txs != []
    ensures var n := |txs| - 1;
            var before := SerialState(e, base, txs[..n]);
            SerialState(e, base, txs) == ApplyBase(before, SerialOutcome(e, before, txs[n]).writes)
  {
  }

  lemma SyncedAtStart(base: Base)
    ensures Synced(map[], base, base, 0)
  {
  }

  /** In step with the serial state, a transaction sees and does what it does in serial execution. */
  lemma SeenSame(e: Setting, d: Data, base: Base, s: Base, bound: nat, tx: Tx)
    requires Synced(d, base, s, bound) && bound <= tx.seqNo
    ensures var out := Execute(e.machine, tx, e.coinbase, ViewAt(d, base, tx.seqNo));
            && out.writes == SerialOutcome(e, s, tx).writes
            && Plain(out.result) == Plain(SerialOutcome(e, s, tx).result)
  {
    var view := ViewAt(d, base, tx.seqNo);
    SyncedReads(d, base, s, bound, tx.seqNo);
    assert SameValues(view, PlainView(s));
    ExecuteSame(e, tx, view, PlainView(s));
  }

  lemma PassStep(search: SearchFn, e: Setting, d: Data, base: Base, s: Base, bound: nat, tx: Tx)
    requires SearchOk(search) && Synced(d, base, s, bound) && bound <= tx.seqNo
    requires SettlesIn(e, s, tx)
    ensures var out := Execute(e.machine, tx, e.coinbase, ViewAt(d, base, tx.seqNo));
            && out.writes == SerialOutcome(e, s, tx).writes
            && Plain(out.result) == Plain(SerialOutcome(e, s, tx).result)
            && Synced(Apply(search, d, tx.seqNo, out.writes), base, ApplyBase(s, out.writes), tx.seqNo + 1)
  {
    hide SearchOk, Synced, Execute, Apply, ApplyBase, SettlesIn, AllSettled;
    SeenSame(e, d, base, s, bound, tx);
    SettledExactly(e, s, tx);
    ApplySyncs(search, d, base, s, bound, tx.seqNo, SerialOutcome(e, s, tx).writes);
  }

  /** The pass returns the serial results, up to read versions. */
  lemma PassIsSerial(search: SearchFn, e: Setting, base: Base, txs: seq<Tx>, i: nat)
    requires SearchOk(search) && InOrder(txs) && Settles(e, base, txs) && i < |txs|
    ensures Plain(PassOutcome(search, e, map[], base, txs, i).result) == Plain(SerialResult(e, base, txs, i))
  {
    hide InOrder, SettlesIn, SearchOk, Synced;
    OrderBelow(txs, i);
    SettlesBelow(e, base, txs, i);
    assert SettlesAt(e, base, txs, i);
    PassSyncs(search, e, base, txs[..i]);
    PassStep(search, e, PassData(search, e, map[], base, txs[..i]), base, SerialState(e, base, txs[..i]),
             Bound(txs[..i]), txs[i]);
  }

  // ---------------------------------------------------------------- nothing is stale

  /** Recorded reads are what the transaction saw. */
  lemma ReadsAreSeen(e: Setting, tx: Tx, view: View, k: StateKey)
    requires k in Execute(e.machine, tx, e.coinbase, view).result.readSet
    ensures Execute(e.machine, tx, e.coinbase, view).result.readSet[k] == view(k)
  {
    hide AllWrites, TotalCost, GasUsed, WriteSetOf, Less, BalanceIn, NonceIn;
  }

  /** A written key is in the write set's chain: a tracked write is a write. */
  lemma WriteSetIsWritten(e: Setting, tx: Tx, view: View, k: StateKey)
    requires k in Execute(e.machine, tx, e.coinbase, view).result.writeSet
    ensures Values(Execute(e.machine, tx, e.coinbase, view).writes, k) != []
  {
    hide AllWrites, AllReads, SenderReads, TotalCost, GasUsed, Less, BalanceIn, NonceIn;
    TrackedAreWritten(Execute(e.machine, tx, e.coinbase, view).writes, k);
  }

  /** Every chain is descending, older than `bound`, and live at the head. */
  ghost predicate Ordered(d: Data, bound: nat) {
    forall k :: HeadLive(ChainOf(d, k), bound)
  }

  ghost predicate HeadLive(c: Chain, bound: nat) {
    Descending(c) && (forall i :: 0 <= i < |c| ==> c[i].seqNo < bound) && (c != [] ==> c[0].status != Aborted)
  }

  lemma HeadLiveAfter(search: SearchFn, c: Chain, bound: nat, s: U64, values: seq<Option<U256>>)
    requires SearchOk(search) && HeadLive(c, bound) && bound <= s
    ensures HeadLive(AddAll(search, c, s, values), s + 1)
  {
    hide SearchOk, AddAll;
    AddNothing(search, c, s);
    FrontIsLater(search, c, s, values);
    var c2 := AddAll(search, c, s, values);
    StackedDescends(c2, c, s, |values|);
    assert forall i :: |values| <= i < |c2| ==> c2[i] == c[i - |values|];
  }

  lemma ApplyOrdered(search: SearchFn, d: Data, bound: nat, seqNo: U64, writes: seq<WriteOp>)
    requires SearchOk(search) && Ordered(d, bound) && bound <= seqNo
    ensures Ordered(Apply(search, d, seqNo, writes), seqNo + 1)
  {
    hide HeadLive, SearchOk, Apply, Values;
    forall k ensures HeadLive(ChainOf(Apply(search, d, seqNo, writes), k), seqNo + 1) {
      ApplyChain(search, d, seqNo, writes, k);
      HeadLiveAfter(search, ChainOf(d, k), bound, seqNo, Values(writes, k));
    }
  }

  /** The pass keeps every chain in order, whatever the transactions do. */
  lemma {:induction false} PassOrdered(search: SearchFn, e: Setting, base: Base, txs: seq<Tx>)
    requires SearchOk(search) && InOrder(txs)
    ensures Ordered(PassData(search, e, map[], base, txs), Bound(txs))
  {
    hide SearchOk, InOrder, Ordered, PassData, Apply, Execute, PassOutcome;
    if txs == [] {
      PassStarts(search, e, base);
      NothingOrdered();
    } else {
      var n := |txs| - 1;
      OrderBelow(txs, n);
      PassOrdered(search, e, base, txs[..n]);
      PassUnfolds(search, e, base, txs);
      ApplyOrdered(search, PassData(search, e, map[], base, txs[..n]), Bound(txs[..n]), txs[n].seqNo,
                   PassOutcome(search, e, map[], base, txs, n).writes);
    }
  }

  lemma NothingOrdered()
    ensures Ordered(map[], 0)
  {
  }

  ghost predicate HeadAtLeast(c: Chain, s: U64) {
    c != [] && c[0].seqNo >= s
  }

  lemma HeadAfterAdd(search: SearchFn, c: Chain, s: U64, values: seq<Option<U256>>, t: U64)
    requires SearchOk(search) && OlderThan(c, s)
    ensures values != [] && t <= s ==> HeadAtLeast(AddAll(search, c, s, values), t)
    ensures values == [] && HeadAtLeast(c, t) ==> HeadAtLeast(AddAll(search, c, s, values), t)
  {
    FrontIsLater(search, c, s, values);
    AddNothing(search, c, s);
  }

  lemma OrderedOlder(d: Data, bound: nat, k: StateKey, seqNo: U64)
    requires Ordered(d, bound) && bound <= seqNo
    ensures OlderThan(ChainOf(d, k), seqNo)
  {
    assert HeadLive(ChainOf(d, k), bound);
  }

  lemma HeadStep(search: SearchFn, e: Setting, d: Data, base: Base, bound: nat, tx: Tx, k: StateKey, t: U64)
    requires SearchOk(search) && Ordered(d, bound) && bound <= tx.seqNo && t <= tx.seqNo
    ensures var writes := Execute(e.machine, tx, e.coinbase, ViewAt(d, base, tx.seqNo)).writes;
            Values(writes, k) != [] || HeadAtLeast(ChainOf(d, k), t) ==>
            HeadAtLeast(ChainOf(Apply(search, d, tx.seqNo, writes), k), t)
  {
    hide SearchOk, HeadAtLeast, Execute, Apply, Ordered, OlderThan, Values, ViewAt;
    var writes := Execute(e.machine, tx, e.coinbase, ViewAt(d, base, tx.seqNo)).writes;
    OrderedOlder(d, bound, k, tx.seqNo);
    ApplyChain(search, d, tx.seqNo, writes, k);
    HeadAfterAdd(search, ChainOf(d, k), tx.seqNo, Values(writes, k), t);
  }

  lemma LastIsNewest(txs: seq<Tx>, j: nat)
    requires InOrder(txs) && j < |txs|
    ensures txs[j].seqNo <= txs[|txs| - 1].seqNo
  {
  }

  lemma LastOutcome(search: SearchFn, e: Setting, base: Base, txs: seq<Tx>)
    requires txs != []
    ensures var n := |txs| - 1;
            PassOutcome(search, e, map[], base, txs, n) ==
            Execute(e.machine, txs[n], e.coinbase,
                    ViewAt(PassData(search, e, map[], base, txs[..n]), base, txs[n].seqNo))
  {
  }

  lemma OutcomeInPrefix(search: SearchFn, e: Setting, base: Base, txs: seq<Tx>, n: nat, j: nat)
    requires j < n <= |txs|
    ensures PassOutcome(search, e, map[], base, txs[..n], j) == PassOutcome(search, e, map[], base, txs, j)
  {
    assert txs[..n][..j] == txs[..j] && txs[..n][j] == txs[j];
  }

  /** Once a transaction has written a key, the key's chain starts at that sequence number or later. */
  lemma {:induction false} HeadsAdvance(search: SearchFn, e: Setting, base: Base, txs: seq<Tx>, j: nat, k: StateKey)
    requires SearchOk(search) && InOrder(txs) && j < |txs|
    requires Values(PassOutcome(search, e, map[], base, txs, j).writes, k) != []
    ensures HeadAtLeast(ChainOf(PassData(search, e, map[], base, txs), k), txs[j].seqNo)
  {
    hide SearchOk, InOrder, HeadAtLeast, Ordered, Values, PassData, Execute, Apply, PassOutcome, ChainOf;
    var n := |txs| - 1;
    var rest, tx := txs[..n], txs[n];
    LastIsNewest(txs, j);
    OrderBelow(txs, n);
    PassOrdered(search, e, base, rest);
    PassUnfolds(search, e, base, txs);
    LastOutcome(search, e, base, txs);
    HeadStep(search, e, PassData(search, e, map[], base, rest), base, Bound(rest), tx, k, txs[j].seqNo);
    if j < n {
      OutcomeInPrefix(search, e, base, txs, n, j);
      HeadsAdvance(search, e, base, rest, j, k);
    }
  }

  lemma VersionIsHead(d: Data, base: Base, bound: nat, reader: U64, k: StateKey, t: U64)
    requires Ordered(d, bound) && bound <= reader && HeadAtLeast(ChainOf(d, k), t)
    ensures ReadAt(d, base, k, reader).1 >= t
  {
    assert HeadLive(ChainOf(d, k), bound);
  }

  /** No result of the pass overwrites what a later one read. */
  lemma NothingOverwritten(search: SearchFn, e: Setting, base: Base, txs: seq<Tx>, j: nat, i: nat)
    requires SearchOk(search) && InOrder(txs)
    requires j < |txs| && i < |txs|
    ensures var rs := PassResults(search, e, map[], base, txs); !Overwrites(rs[j], rs[i])
  {
    var rs := PassResults(search, e, map[], base, txs);
    ResultSeq(e, txs[i], ViewAt(PassData(search, e, map[], base, txs[..i]), base, txs[i].seqNo));
    ResultSeq(e, txs[j], ViewAt(PassData(search, e, map[], base, txs[..j]), base, txs[j].seqNo));
    if j < i {
      forall k | k in rs[i].readSet && k in rs[j].writeSet ensures rs[i].readSet[k].1 >= rs[j].txSeq {
        KeySeenFresh(search, e, base, txs, j, i, k);
      }
    } else if i < j {
      assert txs[i].seqNo < txs[j].seqNo;
    }
  }

  lemma ResultSeq(e: Setting, tx: Tx, view: View)
    ensures Execute(e.machine, tx, e.coinbase, view).result.txSeq == tx.seqNo
  {
  }

  lemma KeySeenFresh(search: SearchFn, e: Setting, base: Base, txs: seq<Tx>, j: nat, i: nat, k: StateKey)
    requires SearchOk(search) && InOrder(txs) && j < i < |txs|
    requires k in PassOutcome(search, e, map[], base, txs, i).result.readSet
    requires k in PassOutcome(search, e, map[], base, txs, j).result.writeSet
    ensures PassOutcome(search, e, map[], base, txs, i).result.readSet[k].1 >= txs[j].seqNo
  {
    hide SearchOk, InOrder, Execute, HeadAtLeast, Apply, Ordered, Values, PassData;
    var rest := txs[..i];
    OrderBelow(txs, i);
    var d := PassData(search, e, map[], base, rest);
    ReadsAreSeen(e, txs[i], ViewAt(d, base, txs[i].seqNo), k);
    WriteSetIsWritten(e, txs[j], ViewAt(PassData(search, e, map[], base, txs[..j]), base, txs[j].seqNo), k);
    OutcomeInPrefix(search, e, base, txs, i, j);
    HeadsAdvance(search, e, base, rest, j, k);
    PassOrdered(search, e, base, rest);
    VersionIsHead(d, base, Bound(rest), txs[i].seqNo, k, txs[j].seqNo);
  }

  lemma PassAscends(search: SearchFn, e: Setting, base: Base, txs: seq<Tx>)
    requires InOrder(txs)
    ensures Ascending(PassResults(search, e, map[], base, txs))
    ensures forall i :: 0 <= i < |txs| ==> PassResults(search, e, map[], base, txs)[i].txSeq == txs[i].seqNo
  {
    forall i | 0 <= i < |txs| ensures PassResults(search, e, map[], base, txs)[i].txSeq == txs[i].seqNo {
      ResultSeq(e, txs[i], ViewAt(PassData(search, e, map[], base, txs[..i]), base, txs[i].seqNo));
    }
  }

  /** Validation of an in-order pass aborts nothing. */
  lemma PassCommits(search: SearchFn, e: Setting, base: Base, txs: seq<Tx>)
    requires SearchOk(search) && InOrder(txs)
    ensures Validate(PassResults(search, e, map[], base, txs)).aborted == []
  {
    var rs := PassResults(search, e, map[], base, txs);
    PassAscends(search, e, base, txs);
    ValidateKeeps(rs);
    var v := Validate(rs);
    hide Validate, Overwrites, LastWriterTable, Ascending, SearchOk, InOrder;
    if v.aborted != [] {
      var s := v.aborted[0];
      assert s in v.aborted;
      var i :| 0 <= i < |rs| && rs[i].txSeq == s;
      assert Blamed(rs, v, i);
      var j :| 0 <= j < |rs| && rs[j].txSeq in v.committed && Overwrites(rs[j], rs[i]);
      NothingOverwritten(search, e, base, txs, j, i);
    }
  }

  // ---------------------------------------------------------------- committing and finalizing

  /** Committing write sets changes no value and keeps every head live. */
  lemma MarkSyncs(d: Data, base: Base, s: Base, bound: nat, keys: set<StateKey>, seqNo: U64)
    requires Synced(d, base, s, bound)
    ensures Synced(Marked(d, keys, seqNo, Committed), base, s, bound)
  {
    forall k ensures Shadows(ChainOf(Marked(d, keys, seqNo, Committed), k), Lookup(base, k), Lookup(s, k), bound) {
      assert Shadows(ChainOf(d, k), Lookup(base, k), Lookup(s, k), bound);
      if k in d && k in keys {
        var i := MarkAt(d[k], seqNo, Committed);
        MarkDescends(d[k], seqNo, Committed);
      }
    }
  }

  /** Chains in step with the serial state finalize to it. */
  lemma FinalizeIsSerial(d: Data, base: Base, s: Base, bound: nat)
    requires Synced(d, base, s, bound) && bound <= U64_MAX
    ensures FinalBase(d, base) == s
  {
    SyncedReads(d, base, s, bound, U64_MAX);
    forall k ensures Lookup(FinalBase(d, base), k) == Lookup(s, k) {
      FinalBaseLookup(d, base, k);
    }
    SameLookups(FinalBase(d, base), s);
  }

  // ---------------------------------------------------------------- exactly when execution is serial

  ghost predicate SerialUpTo(search: SearchFn, e: Setting, base: Base, txs: seq<Tx>, n: nat)
    requires n <= |txs|
  {
    FinalBase(PassData(search, e, map[], base, txs[..n]), base) == SerialState(e, base, txs[..n])
  }

  /** Finalizing after any number of the transactions gives the serial state, wherever the search lands among equals. */
  ghost predicate AlwaysSerial(e: Setting, base: Base, txs: seq<Tx>) {
    forall search, n :: SearchOk(search) && 0 <= n <= |txs| ==> SerialUpTo(search, e, base, txs, n)
  }

  lemma BoundMonotone(txs: seq<Tx>, n: nat)
    requires InOrder(txs) && n <= |txs|
    ensures InOrder(txs[..n]) && Bound(txs[..n]) <= Bound(txs)
  {
  }

  lemma SettledIsSerial(search: SearchFn, e: Setting, base: Base, txs: seq<Tx>, n: nat)
    requires SearchOk(search) && InOrder(txs) && Bound(txs) <= U64_MAX && n <= |txs| && Settles(e, base, txs)
    ensures SerialUpTo(search, e, base, txs, n)
  {
    hide SearchOk, InOrder, Settles, Synced, PassData, SerialState, FinalBase;
    BoundMonotone(txs, n);
    SettlesBelow(e, base, txs, n);
    PassSyncs(search, e, base, txs[..n]);
    FinalizeIsSerial(PassData(search, e, map[], base, txs[..n]), base, SerialState(e, base, txs[..n]), Bound(txs[..n]));
  }

  /** A search that lags behind leaves write `keep - 1` in front, so finalize does not give the last write. */
  lemma UnsettledShows(keep: nat, d: Data, base: Base, s: Base, bound: nat, seqNo: U64, writes: seq<WriteOp>,
                       k: StateKey)
    requires Ordered(d, bound) && bound <= seqNo < U64_MAX
    requires var v := Values(writes, k); 2 <= keep <= |v| && v[keep - 1] != v[|v| - 1]
    ensures FinalBase(Apply(Lagging(keep), d, seqNo, writes), base) != ApplyBase(s, writes)
  {
    hide Apply, ApplyBase, Ordered, SearchOk, AddAll, Stacked, Values, FinalBase, OlderThan;
    OrderedOlder(d, bound, k, seqNo);
    var values := Values(writes, k);
    LaggingFront(ChainOf(d, k), seqNo, values, keep);
    ApplyChain(Lagging(keep), d, seqNo, writes, k);
    ApplyBaseLookup(s, writes, k);
    var d2 := Apply(Lagging(keep), d, seqNo, writes);
    FinalBaseLookup(d2, base, k);
    StackedFront(d2, base, ChainOf(d, k), seqNo, |values|, k);
  }

  lemma UnsettledBreaks(e: Setting, base: Base, txs: seq<Tx>, i: nat) returns (search: SearchFn)
    requires InOrder(txs) && Bound(txs) <= U64_MAX && i < |txs|
    requires Settles(e, base, txs[..i]) && !SettlesAt(e, base, txs, i)
    ensures SearchOk(search) && !SerialUpTo(search, e, base, txs, i + 1)
  {
    hide SearchOk, InOrder, Settles, Synced, Ordered, PassData, SerialState, FinalBase, Execute, Apply, ApplyBase,
         Values, Lagging, SettlesIn;
    var before, upTo, tx := txs[..i], txs[..i + 1], txs[i];
    var s := SerialState(e, base, before);
    var writes := SerialOutcome(e, s, tx).writes;
    SettledExactly(e, s, tx);
    var k :| !Settled(Values(writes, k));
    var values := Values(writes, k);
    var j :| 1 <= j < |values| && values[j] != values[|values| - 1];
    search := Lagging(j + 1);
    LaggingOk(j + 1);
    OrderBelow(txs, i);
    BoundMonotone(txs, i + 1);
    PassSyncs(search, e, base, before);
    PassOrdered(search, e, base, before);
    var d := PassData(search, e, map[], base, before);
    SeenSame(e, d, base, s, Bound(before), tx);
    assert upTo[..i] == before && upTo[i] == tx;
    PassUnfolds(search, e, base, upTo);
    SerialUnfolds(e, base, upTo);
    UnsettledShows(j + 1, d, base, s, Bound(before), tx.seqNo, writes, k);
  }

  lemma FirstUnsettled(e: Setting, base: Base, txs: seq<Tx>) returns (i: nat)
    requires !Settles(e, base, txs)
    ensures i < |txs| && Settles(e, base, txs[..i]) && !SettlesAt(e, base, txs, i)
  {
    hide SettlesIn, SerialState;
    i := 0;
    while i < |txs| && SettlesAt(e, base, txs, i)
      invariant i <= |txs| && forall j :: 0 <= j < i ==> SettlesAt(e, base, txs, j)
    {
      i := i + 1;
    }
    forall j | 0 <= j < i ensures SettlesAt(e, base, txs[..i], j) {
      assert SettlesAt(e, base, txs, j);
      assert txs[..i][..j] == txs[..j];
    }
  }

  /** Execution from empty chains is serial after every transaction, for every admissible search, exactly when each
      transaction settles its keys where serial execution runs it. */
  lemma SerialExactly(e: Setting, base: Base, txs: seq<Tx>)
    requires InOrder(txs) && Bound(txs) <= U64_MAX
    ensures AlwaysSerial(e, base, txs) <==> Settles(e, base, txs)
  {
    hide SearchOk, InOrder, Settles, SerialUpTo, SettlesAt;
    if Settles(e, base, txs) {
      forall search, n | SearchOk(search) && 0 <= n <= |txs| ensures SerialUpTo(search, e, base, txs, n) {
        SettledIsSerial(search, e, base, txs, n);
      }
    } else {
      var i := FirstUnsettled(e, base, txs);
      var search := UnsettledBreaks(e, base, txs, i);
    }
  }

  lemma StackedFront(d: Data, base: Base, c: Chain, s: U64, n: nat, k: StateKey)
    requires Stacked(ChainOf(d, k), c, s, n) && n > 0 && s < U64_MAX
    ensures |ChainOf(d, k)| > 0 && ReadAt(d, base, k, U64_MAX).0 == ChainOf(d, k)[0].value
  {
  }
}
