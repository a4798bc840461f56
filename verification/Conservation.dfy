/** What a transaction does to the sum of all balances. */
module Conservation {
  import opened Common
  import opened Words
  import opened Results
  import opened Mvcc
  import opened Vm
  import opened Serial
  import opened TameTransactions
  import opened Blocks

  function Balance(s: Base, a: Address): nat {
    Val(OrZero(Lookup(s, BalanceKey(a))))
  }

  /** The sum of the listed accounts' balances. */
  function Supply(s: Base, who: seq<Address>): nat {
    if who == [] then 0 else Supply(s, who[..|who| - 1]) + Balance(s, who[|who| - 1])
  }

  lemma {:induction false} SupplyCovers(s: Base, who: seq<Address>, a: Address)
    requires a in who
    ensures Balance(s, a) <= Supply(s, who)
  {
    var init := who[..|who| - 1];
    if a != who[|who| - 1] {
      assert who == init + [who[|who| - 1]];
      SupplyCovers(s, init, a);
    }
  }

  lemma {:induction false} SupplyElsewhere(s: Base, who: seq<Address>, k: StateKey, w: U256)
    requires forall a :: a in who ==> BalanceKey(a) != k
    ensures Supply(s[k := w], who) == Supply(s, who)
  {
    if who != [] {
      SupplyElsewhere(s, who[..|who| - 1], k, w);
    }
  }

  /** Writing one account's balance moves the supply by the difference. */
  lemma {:induction false} SupplyPut(s: Base, who: seq<Address>, a: Address, w: U256)
    requires Distinct(who) && a in who
    ensures Supply(s[BalanceKey(a) := w], who) == Supply(s, who) - Balance(s, a) + Val(w)
  {
    var init, last := who[..|who| - 1], who[|who| - 1];
    assert who == init + [last];
    hide Val;
    if a == last {
      forall b | b in init ensures BalanceKey(b) != BalanceKey(a) {
        KeysApart(a, b);
      }
      SupplyElsewhere(s, init, BalanceKey(a), w);
    } else {
      KeysApart(a, last);
      SupplyPut(s, init, a, w);
    }
  }

  lemma BalancePut(s: Base, a: Address, w: U256, b: Address)
    ensures Balance(s[BalanceKey(a) := w], b) == if a == b then Val(w) else Balance(s, b)
  {
    hide Val;
    KeysApart(a, b);
  }

  lemma OtherPut(s: Base, who: seq<Address>, k: StateKey, w: U256, a: Address)
    requires k == NonceKey(a) || k == CodeKey(a)
    ensures Supply(s[k := w], who) == Supply(s, who)
    ensures forall b :: Balance(s[k := w], b) == Balance(s, b)
  {
    hide Val, Supply;
    forall b ensures BalanceKey(b) != k {
      KeysApart(b, a);
      KeysApart(a, b);
    }
    SupplyElsewhere(s, who, k, w);
  }

  // ---------------------------------------------------------------- amounts, wrap-around included

  /** Gas times price on 64 bits: the whole limit, the part used, and the part refunded. */
  function GasPaid(tx: Tx): U64 {
    Wrap(tx.gasLimit as int * tx.gasPrice[0])
  }

  function Fee(m: Machine, tx: Tx): U64 {
    Wrap(GasUsed(m, tx) as int * tx.gasPrice[0])
  }

  function Refund(m: Machine, tx: Tx): U64 {
    Wrap(Wrap(tx.gasLimit as int - GasUsed(m, tx)) as int * tx.gasPrice[0])
  }

  /** One when fee and refund together exceed what was paid, which is then by 2^64. */
  function GasCarry(m: Machine, tx: Tx): nat {
    if Fee(m, tx) as int + Refund(m, tx) >= U64_LIMIT then 1 else 0
  }

  /** One when the lowest limb of the cost carries into the limb that is not debited. */
  function CostCarry(tx: Tx): nat {
    if tx.value[0] as int + GasPaid(tx) >= U64_LIMIT then 1 else 0
  }

  /** One when the debit borrows and the second limb cannot pay. */
  function Unborrowed(tx: Tx, balance: U256): nat {
    if balance[0] < TotalCost(tx)[0] && balance[1] == 0 then 1 else 0
  }

  lemma OneLimb(w: U256)
    ensures Val(w) < U64_LIMIT <==> w[1] == 0 && w[2] == 0 && w[3] == 0
    ensures Val(w) < U128_LIMIT ==> w[2] == 0 && w[3] == 0
    ensures Val(w) == 0 <==> w == ZERO
  {
    assert w == [w[0], w[1], w[2], w[3]];
  }

  lemma OneLimbVal(v: U64)
    ensures Val(FromU64(v)) == v
  {
  }

  lemma WrapMul(a: int, p: int)
    ensures Wrap(Wrap(a) as int * p) == Wrap(a * p)
  {
    var q := a / 0x1_0000_0000_0000_0000;
    calc {
      a * p;
      (Wrap(a) as int + q * 0x1_0000_0000_0000_0000) * p;
      Wrap(a) as int * p + (q * p) * 0x1_0000_0000_0000_0000;
    }
    WrapShift(Wrap(a) as int * p, q * p);
  }

  lemma WrapSum(a: int, b: int)
    ensures Wrap(a) as int + Wrap(b) == Wrap(a + b) + (if Wrap(a) as int + Wrap(b) >= U64_LIMIT then U64_LIMIT else 0)
  {
    WrapAdd(a, b);
    var x := Wrap(a) as int;
    WrapAdd(b, x);
    var sum: int := x + Wrap(b);
    assert Wrap(sum) == Wrap(a + b);
    if sum >= U64_LIMIT {
      WrapShift(sum, -1);
      WrapSmall(sum - U64_LIMIT);
    } else {
      WrapSmall(sum);
    }
  }

  /** Fee and refund add up to what was paid, or to 2^64 more. */
  lemma GasSplits(m: Machine, tx: Tx)
    ensures Fee(m, tx) as int + Refund(m, tx) == GasPaid(tx) + GasCarry(m, tx) * U64_LIMIT
  {
    hide GasUsed, Wrap;
    var used: int, limit: int, p: int := GasUsed(m, tx), tx.gasLimit, tx.gasPrice[0];
    WrapMul(limit - used, p);
    WrapSum(used * p, (limit - used) * p);
    assert used * p + (limit - used) * p == limit * p;
  }

  /** The lowest limb of the cost. */
  lemma CostLow(tx: Tx)
    ensures TotalCost(tx)[0] == tx.value[0] + GasPaid(tx) - CostCarry(tx) * U64_LIMIT
  {
    assert CarryInto(tx.value, MulPrice(tx, tx.gasLimit), 0) == 0;
  }

  lemma SubLowVal(a: U256, b: U256)
    ensures Val(SubLow(a, b)) == Val(a) - b[0] + (if a[0] < b[0] && a[1] == 0 then U64_LIMIT else 0)
  {
    var low: int := a[0] as int - b[0];
    if low < 0 {
      WrapShift(low, 1);
      WrapSmall(low + U64_LIMIT);
    } else {
      WrapSmall(low);
    }
    hide Wrap;
    UpperSplits(a);
    UpperSplits(SubLow(a, b));
  }

  /** What the sender would end with if balances had no bound. */
  function SenderTarget(m: Machine, tx: Tx, balance: U256): int {
    Val(balance) - tx.value[0] - Fee(m, tx) + (GasCarry(m, tx) + CostCarry(tx) + Unborrowed(tx, balance)) * U64_LIMIT
  }

  lemma DebitLeaves(m: Machine, tx: Tx, view: View)
    ensures Val(Debited(tx, view)) + Refund(m, tx) == SenderTarget(m, tx, BalanceIn(view, tx.from))
  {
    hide Val, TotalCost, BalanceIn, WrappingAdd, SubLow, GasUsed, Wrap, Fee, Refund, GasPaid;
    SubLowVal(BalanceIn(view, tx.from), TotalCost(tx));
    CostLow(tx);
    GasSplits(m, tx);
  }

  /** What the sender ends with, unless it mines. */
  lemma SenderEnds(m: Machine, tx: Tx, view: View)
    ensures var target := SenderTarget(m, tx, BalanceIn(view, tx.from));
            Val(Refunded(m, tx, view)) == target - if target >= U256_LIMIT then U256_LIMIT else 0
  {
    hide Val, BalanceIn, WrappingAdd, Debited, GasUsed, Wrap, SenderTarget, Refund;
    var left := MulPrice(tx, Wrap(tx.gasLimit as int - GasUsed(m, tx)));
    DebitLeaves(m, tx, view);
    RefundVal(m, tx);
    ValBound(Debited(tx, view));
    ValBound(left);
    AddWraps(Debited(tx, view), left);
  }

  lemma AddWraps(a: U256, b: U256)
    ensures Val(WrappingAdd(a, b)) == Val(a) + Val(b) - if Val(a) + Val(b) >= U256_LIMIT then U256_LIMIT else 0
  {
    hide Val, WrappingAdd;
    AddExact(a, b);
    ValBound(a);
    ValBound(b);
    var sum := Val(a) + Val(b);
    ReduceOnce(sum, if sum >= U256_LIMIT then sum - U256_LIMIT else sum);
  }

  lemma RefundVal(m: Machine, tx: Tx)
    ensures Val(MulPrice(tx, Wrap(tx.gasLimit as int - GasUsed(m, tx)))) == Refund(m, tx)
    ensures Val(MulPrice(tx, GasUsed(m, tx))) == Fee(m, tx)
  {
    OneLimbVal(Refund(m, tx));
    OneLimbVal(Fee(m, tx));
  }

  // ---------------------------------------------------------------- one transaction

  /** What the recipient's balance is set to. */
  function Received(tx: Tx, s: Base): nat {
    if tx.to.Some? then (Balance(s, tx.to.value) + Val(tx.value)) % U256_LIMIT else Val(tx.value)
  }

  /** The call or creation writes the recipient's balance if it moves value, and no other balance. */
  lemma BodySupply(m: Machine, tx: Tx, s: Base, t: Base, who: seq<Address>, b: Address)
    requires Distinct(who) && Recipient(m, tx) in who
    ensures var after, r := ApplyBase(t, BodyWrites(m, tx, PlainView(s))), Recipient(m, tx);
            && Supply(after, who) == Supply(t, who) + (if tx.value == ZERO then 0 else Received(tx, s) - Balance(t, r))
            && Balance(after, b) == if tx.value != ZERO && b == r then Received(tx, s) else Balance(t, b)
  {
    hide Val, Supply, Balance, WrappingAdd;
    var body, r := BodyWrites(m, tx, PlainView(s)), Recipient(m, tx);
    if tx.to.Some? {
      if tx.value == ZERO {
        assert body == [];
      } else {
        AddExact(BalanceIn(PlainView(s), r), tx.value);
        BalanceSeen(s, r);
        ApplyOne(t, body[0]);
        SupplyPut(t, who, r, body[0].value);
        BalancePut(t, r, body[0].value, b);
      }
    } else {
      var code := body[|body| - 1];
      if tx.value == ZERO {
        assert body == [code];
        ApplyOne(t, code);
        OtherPut(t, who, code.key, code.value, r);
      } else {
        assert body == [body[0]] + [code];
        ApplyOne(t, body[0]);
        var t2 := t[body[0].key := body[0].value];
        assert body[..1] == [body[0]];
        SupplyPut(t, who, r, body[0].value);
        BalancePut(t, r, body[0].value, b);
        OtherPut(t2, who, code.key, code.value, r);
      }
    }
  }

  lemma BalanceSeen(s: Base, a: Address)
    ensures Val(BalanceIn(PlainView(s), a)) == Balance(s, a)
  {
  }

  lemma ApplyOne(s: Base, w: WriteOp)
    ensures ApplyBase(s, [w]) == s[w.key := w.value]
  {
    assert [w][..0] == [];
  }

  lemma {:induction false} ApplyConcat(s: Base, a: seq<WriteOp>, b: seq<WriteOp>)
    ensures ApplyBase(s, a + b) == ApplyBase(ApplyBase(s, a), b)
  {
    if b == [] {
      assert a + b == a;
    } else {
      ApplyConcat(s, a, b[..|b| - 1]);
      assert (a + b)[..|a + b| - 1] == a + b[..|b| - 1];
    }
  }

  lemma ApplyTwo(s: Base, v: WriteOp, w: WriteOp)
    ensures ApplyBase(s, [v, w]) == s[v.key := v.value][w.key := w.value]
  {
    assert [v, w] == [v] + [w];
    ApplyConcat(s, [v], [w]);
    ApplyOne(s, v);
    ApplyOne(s[v.key := v.value], w);
  }

  /** The value moves to an account that is neither the sender's nor the miner's. */
  predicate ToThird(e: Setting, tx: Tx) {
    tx.value != ZERO && Recipient(e.machine, tx) != tx.from && Recipient(e.machine, tx) != e.coinbase
  }

  /** How often 2^64 is lost sight of: in the gas split, in the cost, and in the borrow. */
  function Carries(m: Machine, s: Base, tx: Tx): nat {
    GasCarry(m, tx) + CostCarry(tx) + Unborrowed(tx, OrZero(Lookup(s, BalanceKey(tx.from))))
  }

  /** The refund passes 2^256. */
  predicate RefundWraps(e: Setting, s: Base, tx: Tx) {
    SenderTarget(e.machine, tx, OrZero(Lookup(s, BalanceKey(tx.from)))) >= U256_LIMIT
  }

  /** The fee passes 2^256. */
  predicate FeeWraps(e: Setting, s: Base, tx: Tx) {
    Balance(s, e.coinbase) + Fee(e.machine, tx) >= U256_LIMIT
  }

  function WrapLoss(wraps: bool): nat {
    if wraps then U256_LIMIT else 0
  }

  /** By how much a transaction that goes through changes the supply. */
  function Drift(e: Setting, s: Base, tx: Tx): int {
    (if tx.from == e.coinbase then Fee(e.machine, tx) as int
     else Carries(e.machine, s, tx) * U64_LIMIT - tx.value[0] - WrapLoss(RefundWraps(e, s, tx)))
    + (if ToThird(e, tx) then Received(tx, s) - Balance(s, Recipient(e.machine, tx)) else 0)
    - WrapLoss(FeeWraps(e, s, tx))
  }

  ghost predicate Known(e: Setting, tx: Tx, who: seq<Address>) {
    tx.from in who && e.coinbase in who && Recipient(e.machine, tx) in who
  }

  /** The balances and the supply right before the refund is written. */
  lemma BeforeRefund(e: Setting, s: Base, tx: Tx, who: seq<Address>, b: Address)
    requires Distinct(who) && Known(e, tx, who)
    ensures var view, r := PlainView(s), Recipient(e.machine, tx);
            var writes := AllWrites(e.machine, tx, e.coinbase, view);
            var t := ApplyBase(s, writes[..|writes| - 2]);
            var paid := Val(Debited(tx, view));
            && Supply(t, who) == Supply(s, who) - Balance(s, tx.from) + paid +
                 (if tx.value == ZERO then 0
                  else Received(tx, s) - (if r == tx.from then paid else Balance(s, r)))
            && Balance(t, b) == if tx.value != ZERO && b == r then Received(tx, s)
                                else if b == tx.from then paid else Balance(s, b)
  {
    hide Val, Supply, Balance, WrappingAdd, Debited, Refunded, Credited, BodyWrites, Received, GasUsed, ApplyBase,
         BalanceKey, NonceKey, Distinct;
    var view, r := PlainView(s), Recipient(e.machine, tx);
    var writes, body := AllWrites(e.machine, tx, e.coinbase, view), BodyWrites(e.machine, tx, view);
    var first, second := writes[0], writes[1];
    assert writes[..|writes| - 2] == [first, second] + body;
    ApplyConcat(s, [first, second], body);
    ApplyTwo(s, first, second);
    var s1 := s[first.key := first.value];
    var s2 := s1[second.key := second.value];
    SupplyPut(s, who, tx.from, first.value);
    OtherPut(s1, who, second.key, second.value, tx.from);
    BalancePut(s, tx.from, first.value, b);
    BalancePut(s, tx.from, first.value, r);
    BodySupply(e.machine, tx, s, s2, who, b);
  }

  /** A transaction that goes through moves the supply by exactly its drift. */
  lemma SupplyMoves(e: Setting, s: Base, tx: Tx, who: seq<Address>)
    requires Distinct(who) && Known(e, tx, who)
    requires SerialOutcome(e, s, tx).result.status == Success
    ensures Supply(ApplyBase(s, SerialOutcome(e, s, tx).writes), who) == Supply(s, who) + Drift(e, s, tx)
  {
    hide Val, Supply, Balance, WrappingAdd, Debited, Refunded, BodyWrites, GasUsed, ApplyBase, TotalCost, BalanceKey,
         NonceKey, WriteSetOf, Fee, Carries, Received, RefundWraps, FeeWraps;
    var view, r := PlainView(s), Recipient(e.machine, tx);
    var writes := AllWrites(e.machine, tx, e.coinbase, view);
    var n := |writes|;
    var refund, credit := writes[n - 2], writes[n - 1];
    assert writes == writes[..n - 2] + [refund, credit];
    var t := ApplyBase(s, writes[..n - 2]);
    ApplyConcat(s, writes[..n - 2], [refund, credit]);
    ApplyTwo(t, refund, credit);
    var t2 := t[refund.key := refund.value];
    BeforeRefund(e, s, tx, who, tx.from);
    BeforeRefund(e, s, tx, who, e.coinbase);
    SupplyPut(t, who, tx.from, refund.value);
    SupplyPut(t2, who, e.coinbase, credit.value);
    BalancePut(t, tx.from, refund.value, e.coinbase);
    Settlement(e, s, tx);
  }

  /** The numbers behind the last two writes. */
  lemma Settlement(e: Setting, s: Base, tx: Tx)
    ensures Val(Refunded(e.machine, tx, PlainView(s))) ==
            Balance(s, tx.from) - tx.value[0] - Fee(e.machine, tx) + Carries(e.machine, s, tx) * U64_LIMIT
            - WrapLoss(RefundWraps(e, s, tx))
    ensures Val(Credited(e.machine, tx, e.coinbase, PlainView(s))) ==
            Balance(s, e.coinbase) + Fee(e.machine, tx) - WrapLoss(FeeWraps(e, s, tx))
    ensures tx.value == ZERO ==> tx.value[0] == 0
  {
    hide Val, WrappingAdd, Debited, Refunded, MulPrice, TotalCost, GasUsed, BalanceKey, NonceKey, Fee;
    var view := PlainView(s);
    SenderEnds(e.machine, tx, view);
    RefundVal(e.machine, tx);
    AddWraps(BalanceIn(view, e.coinbase), MulPrice(tx, GasUsed(e.machine, tx)));
  }

  // ---------------------------------------------------------------- exactly when one transaction conserves

  const U192_LIMIT: nat := U128_LIMIT * U64_LIMIT

  /** Crediting the value passes 2^256. */
  predicate CreditWraps(s: Base, to: Address, value: U256) {
    Balance(s, to) + Val(value) >= U256_LIMIT
  }

  lemma ReceivedMoves(s: Base, tx: Tx)
    requires tx.to.Some?
    ensures Received(tx, s) - Balance(s, tx.to.value) ==
            Val(tx.value) - (if CreditWraps(s, tx.to.value, tx.value) then U256_LIMIT else 0)
  {
    hide Val, Balance;
    ValBound(tx.value);
    SmallBalance(s, tx.to.value);
    var sum := Balance(s, tx.to.value) + Val(tx.value);
    ReduceOnce(sum, if sum >= U256_LIMIT then sum - U256_LIMIT else sum);
  }

  /** How many of refund, fee and credit pass 2^256. */
  function WrapCount(e: Setting, s: Base, tx: Tx): nat
    requires tx.to.Some?
  {
    (if tx.from != e.coinbase && RefundWraps(e, s, tx) then 1 else 0) + (if FeeWraps(e, s, tx) then 1 else 0)
    + (if ToThird(e, tx) && CreditWraps(s, tx.to.value, tx.value) then 1 else 0)
  }

  /** For every call that goes through, whatever its amounts, its state and whichever accounts coincide. */
  lemma CallConserves(e: Setting, s: Base, tx: Tx, who: seq<Address>)
    requires Distinct(who) && Known(e, tx, who)
    requires SerialOutcome(e, s, tx).result.status == Success && tx.to.Some?
    ensures Supply(ApplyBase(s, SerialOutcome(e, s, tx).writes), who) == Supply(s, who) <==>
            var wraps := WrapCount(e, s, tx);
            if tx.from == e.coinbase then
              Fee(e.machine, tx) as int + (if ToThird(e, tx) then Val(tx.value) else 0) == wraps * U256_LIMIT
            else if tx.value == ZERO || ToThird(e, tx) then
              Carries(e.machine, s, tx) + Upper(tx.value) == wraps * U192_LIMIT
            else Carries(e.machine, s, tx) == 0 && tx.value[0] == 0 && wraps == 0
  {
    hide Val, Supply, Drift, ApplyBase, Execute, Fee, Carries, Upper, WrapCount;
    SupplyMoves(e, s, tx, who);
    CallDrift(e, s, tx);
    CarriesAtMost(e.machine, s, tx);
    CountLimbs(Carries(e.machine, s, tx), Upper(tx.value), tx.value[0], WrapCount(e, s, tx));
  }

  /** The drift of a call, with every wrap counted. */
  lemma CallDrift(e: Setting, s: Base, tx: Tx)
    requires tx.to.Some?
    ensures Drift(e, s, tx) ==
            (if tx.from == e.coinbase then Fee(e.machine, tx) as int + (if ToThird(e, tx) then Val(tx.value) else 0)
             else if tx.value == ZERO || ToThird(e, tx) then
               Carries(e.machine, s, tx) * U64_LIMIT + Upper(tx.value) * U64_LIMIT
             else Carries(e.machine, s, tx) * U64_LIMIT - tx.value[0])
            - WrapCount(e, s, tx) * U256_LIMIT
  {
    hide Val, Balance, Fee, Carries, Upper, RefundWraps, FeeWraps, CreditWraps, Received;
    ReceivedMoves(s, tx);
    UpperSplits(tx.value);
    OneLimb(tx.value);
  }

  lemma CarriesAtMost(m: Machine, s: Base, tx: Tx)
    ensures Carries(m, s, tx) <= 3
  {
  }

  lemma SmallBalance(s: Base, a: Address)
    ensures Balance(s, a) < U256_LIMIT
  {
    ValBound(OrZero(Lookup(s, BalanceKey(a))));
  }

  lemma CountLimbs(carries: nat, upper: nat, low: U64, wraps: nat)
    requires carries <= 3
    ensures carries * U64_LIMIT + upper * U64_LIMIT - wraps * U256_LIMIT == 0 <==> carries + upper == wraps * U192_LIMIT
    ensures carries * U64_LIMIT - low - wraps * U256_LIMIT == 0 <==> carries == 0 && low == 0 && wraps == 0
  {
  }

  /** Neither the sender nor the recipient mines, and they differ. */
  predicate ThreeAccounts(e: Setting, tx: Tx) {
    tx.to.Some? && tx.from != e.coinbase && tx.to.value != tx.from && tx.to.value != e.coinbase
  }

  lemma SmallNoWraps(e: Setting, s: Base, tx: Tx)
    requires Balance(s, tx.from) < U128_LIMIT && Balance(s, e.coinbase) < U128_LIMIT
    ensures !RefundWraps(e, s, tx) && !FeeWraps(e, s, tx)
  {
    hide Val, BalanceKey, TotalCost, GasUsed, Fee, Refund, GasPaid, GasCarry, CostCarry, Unborrowed;
    AtMostOne(e.machine, tx, OrZero(Lookup(s, BalanceKey(tx.from))));
  }

  lemma AtMostOne(m: Machine, tx: Tx, balance: U256)
    ensures GasCarry(m, tx) <= 1 && CostCarry(tx) <= 1 && Unborrowed(tx, balance) <= 1
  {
  }

  lemma GasCarryExact(m: Machine, tx: Tx)
    requires tx.gasLimit * tx.gasPrice[0] < U64_LIMIT && GasUsed(m, tx) * tx.gasPrice[0] < U64_LIMIT
    ensures GasPaid(tx) == tx.gasLimit * tx.gasPrice[0]
    ensures GasCarry(m, tx) == 0 <==> GasUsed(m, tx) <= tx.gasLimit || tx.gasPrice[0] == 0
  {
    hide GasUsed, Wrap;
    var used: int, limit: int, p: int := GasUsed(m, tx), tx.gasLimit, tx.gasPrice[0];
    WrapSmall(limit * p);
    WrapSmall(used * p);
    WrapMul(limit - used, p);
    LeftOver(used, limit, p);
  }

  /** The refund product is exact when the limit covers the use, and 2^64 too much otherwise. */
  lemma LeftOver(used: nat, limit: nat, p: nat)
    requires limit * p < U64_LIMIT && used * p < U64_LIMIT
    ensures Wrap((limit as int - used) * p) == limit * p - used * p + if used <= limit || p == 0 then 0 else U64_LIMIT
  {
    assert (limit as int - used) * p == limit * p - used * p;
    var left: int := limit * p - used * p;
    if used <= limit {
      MulMonotone(used, limit, p);
      WrapSmall(left);
    } else if p > 0 {
      MulStrict(limit, used, p);
      WrapShift(left, 1);
      WrapSmall(left + U64_LIMIT);
    } else {
      WrapSmall(0);
    }
  }

  lemma MulMonotone(x: nat, y: nat, p: nat)
    requires x <= y
    ensures x * p <= y * p
  {
  }

  lemma MulStrict(x: nat, y: nat, p: nat)
    requires x < y && p > 0
    ensures x * p < y * p
  {
    MulMonotone(x + 1, y, p);
    assert (x + 1) * p == x * p + p;
  }

  lemma SolventBorrows(s: Base, tx: Tx)
    requires Balance(s, tx.from) < U128_LIMIT && !Less(OrZero(Lookup(s, BalanceKey(tx.from))), TotalCost(tx))
    ensures Unborrowed(tx, OrZero(Lookup(s, BalanceKey(tx.from)))) == 0
  {
    hide TotalCost, BalanceKey;
    OneLimb(OrZero(Lookup(s, BalanceKey(tx.from))));
    UpperSplits(TotalCost(tx));
  }

  lemma SuccessSolvent(e: Setting, s: Base, tx: Tx)
    requires SerialOutcome(e, s, tx).result.status == Success
    ensures !Less(OrZero(Lookup(s, BalanceKey(tx.from))), TotalCost(tx))
  {
    hide Less, TotalCost, AllWrites, AllReads, WriteSetOf, BalanceKey, NonceKey, GasUsed;
  }

  lemma PlainlySized(tx: Tx)
    ensures CostCarry(tx) + Upper(tx.value) == 0 <==> Val(tx.value) + GasPaid(tx) < U64_LIMIT
    ensures Upper(tx.value) < U192_LIMIT
  {
    hide Val, Upper, GasPaid;
    UpperSplits(tx.value);
    ValBound(tx.value);
  }

  /** Among three accounts, in the range where the gas products do not wrap: the value and the gas limit together must
      fit one limb and the limit must cover the gas used, unless crediting the value wraps. */
  lemma ThreeAccountsConserve(e: Setting, s: Base, tx: Tx, who: seq<Address>)
    requires Distinct(who) && Known(e, tx, who) && Supply(s, who) < U128_LIMIT && ThreeAccounts(e, tx)
    requires tx.gasLimit * tx.gasPrice[0] < U64_LIMIT && GasUsed(e.machine, tx) * tx.gasPrice[0] < U64_LIMIT
    requires SerialOutcome(e, s, tx).result.status == Success
    ensures Supply(ApplyBase(s, SerialOutcome(e, s, tx).writes), who) == Supply(s, who) <==>
            if tx.value != ZERO && CreditWraps(s, tx.to.value, tx.value) then
              Carries(e.machine, s, tx) + Upper(tx.value) == U192_LIMIT
            else
              && Val(tx.value) + tx.gasLimit * tx.gasPrice[0] < U64_LIMIT
              && (GasUsed(e.machine, tx) <= tx.gasLimit || tx.gasPrice[0] == 0)
  {
    hide Val, Supply, ApplyBase, GasUsed, TotalCost, BalanceKey, NonceKey, GasCarry, GasPaid, Execute, RefundWraps,
         FeeWraps, CreditWraps, Balance, Upper, Unborrowed, CostCarry;
    SupplyCovers(s, who, tx.from);
    SupplyCovers(s, who, e.coinbase);
    SuccessSolvent(e, s, tx);
    SolventBorrows(s, tx);
    SmallNoWraps(e, s, tx);
    GasCarryExact(e.machine, tx);
    CallConserves(e, s, tx, who);
    PlainlySized(tx);
  }

  // ---------------------------------------------------------------- inputs that do not conserve, or only just

  const TOP: U64 := 0xFFFF_FFFF_FFFF_FFFF

  function Transfer(from: Address, to: Address, value: U256, gasLimit: U64): Tx {
    Tx(from, Some(to), value, gasLimit, FromU64(1), 0, [], 0)
  }

  function Funded(a: Address, balance: U256): Base {
    map[BalanceKey(a) := balance]
  }

  lemma FundedSeen(a: Address, balance: U256)
    ensures Lookup(Funded(a, balance), BalanceKey(a)) == Some(balance) &&
            Lookup(Funded(a, balance), NonceKey(a)) == None
    ensures forall b :: b != a ==> Balance(Funded(a, balance), b) == 0
    ensures Balance(Funded(a, balance), a) == Val(balance)
  {
    KeysApart(a, a);
    OneLimb(ZERO);
    forall b ensures b != a ==> BalanceKey(b) != BalanceKey(a) {
      KeysApart(b, a);
    }
    hide Val, BalanceKey, NonceKey;
  }

  lemma Succeeds(e: Setting, s: Base, tx: Tx)
    requires tx.nonce == 0 && Lookup(s, NonceKey(tx.from)) == None
    requires !Less(OrZero(Lookup(s, BalanceKey(tx.from))), TotalCost(tx))
    ensures SerialOutcome(e, s, tx).result.status == Success
  {
    hide Val, TotalCost, BalanceKey, NonceKey, AllWrites, AllReads, WriteSetOf, Less;
    assert NonceIn(PlainView(s), tx.from) == 0;
    assert BalanceIn(PlainView(s), tx.from) == OrZero(Lookup(s, BalanceKey(tx.from)));
  }

  lemma SupplyThree(s: Base, a: Address, b: Address, c: Address)
    ensures Supply(s, [a, b, c]) == Balance(s, a) + Balance(s, b) + Balance(s, c)
  {
    hide Balance;
    var one: seq<Address>, two: seq<Address> := [a], [a, b];
    assert [a, b, c][..2] == two && two[..1] == one && one[..0] == [];
    assert Supply(s, two) == Supply(s, one) + Balance(s, b);
  }

  lemma GasOfCall(m: Machine, tx: Tx)
    requires m.code == map[] && tx.to.Some? && tx.gasPrice == FromU64(1)
    ensures GasUsed(m, tx) == 21000 == Fee(m, tx) && GasPaid(tx) == tx.gasLimit
    ensures GasCarry(m, tx) == if tx.gasLimit < 21000 then 1 else 0
  {
    WrapSmall(tx.gasLimit);
    WrapSmall(21000);
    GasCarryExact(m, tx);
  }

  lemma CostOf(tx: Tx)
    ensures Val(TotalCost(tx)) == (Val(tx.value) + GasPaid(tx)) % U256_LIMIT
  {
    OneLimbVal(GasPaid(tx));
    AddExact(tx.value, MulPrice(tx, tx.gasLimit));
  }

  lemma TwoLimbs(x: U64, y: U64)
    ensures Val([x, y, 0, 0]) == x + y * U64_LIMIT
  {
  }

  lemma TopVal()
    ensures Val([TOP, TOP, TOP, TOP]) == U256_LIMIT - 1
  {
  }

  /** From an empty state, a call with gas limit zero among three accounts brings 2^64 into being. */
  lemma ShortGasMints(m: Machine, a: Address, b: Address, c: Address)
    requires m.code == map[] && a != b && a != c && b != c
    ensures var e, tx := Setting(m, c), Transfer(a, b, ZERO, 0);
            var after := ApplyBase(map[], SerialOutcome(e, map[], tx).writes);
            && SerialOutcome(e, map[], tx).result.status == Success && ThreeAccounts(e, tx)
            && Supply(map[], [a, b, c]) == 0 && Supply(after, [a, b, c]) == U64_LIMIT
  {
    hide Val, BalanceKey, NonceKey, TotalCost, Execute, ApplyBase, Supply, GasUsed, Fee, GasPaid, GasCarry, Funded;
    var e, s: Base, tx := Setting(m, c), map[], Transfer(a, b, ZERO, 0);
    OneLimb(ZERO);
    CostOf(tx);
    GasOfCall(m, tx);
    CostLow(tx);
    Succeeds(e, s, tx);
    SupplyThree(s, a, b, c);
    assert Supply(s, [a, b, c]) == 0;
    SupplyMoves(e, s, tx, [a, b, c]);
  }

  /** A value of 2^64 is credited but not debited: the second limb of the cost is not subtracted. */
  lemma SecondLimbMints(m: Machine, a: Address, b: Address, c: Address)
    requires m.code == map[] && a != b && a != c && b != c
    ensures var e, s, tx := Setting(m, c), Funded(a, [21000, 1, 0, 0]), Transfer(a, b, [0, 1, 0, 0], 21000);
            var after := ApplyBase(s, SerialOutcome(e, s, tx).writes);
            && SerialOutcome(e, s, tx).result.status == Success && ThreeAccounts(e, tx)
            && Supply(after, [a, b, c]) == Supply(s, [a, b, c]) + U64_LIMIT
  {
    hide Val, BalanceKey, NonceKey, TotalCost, Execute, ApplyBase, Supply, GasUsed, Fee, GasPaid, GasCarry, Funded,
         Balance, Wrap, WrappingAdd;
    var e, s, tx := Setting(m, c), Funded(a, [21000, 1, 0, 0]), Transfer(a, b, [0, 1, 0, 0], 21000);
    TwoLimbs(21000, 1);
    TwoLimbs(0, 1);
    FundedSeen(a, [21000, 1, 0, 0]);
    GasOfCall(m, tx);
    assert SerialOutcome(e, s, tx).result.status == Success by {
      CostOf(tx);
      Succeeds(e, s, tx);
    }
    CostLow(tx);
    SupplyThree(s, a, b, c);
    SupplyMoves(e, s, tx, [a, b, c]);
  }

  /** A value of 2^256 - 1 takes one from the recipient; with the carry into the cost the sum stays the same. */
  lemma WrappedValueConserves(m: Machine, a: Address, b: Address, c: Address)
    requires m.code == map[] && a != b && a != c && b != c
    ensures var e, s, tx := Setting(m, c), Funded(a, FromU64(20999))[BalanceKey(b) := FromU64(1)],
            Transfer(a, b, [TOP, TOP, TOP, TOP], 21000);
            var after := ApplyBase(s, SerialOutcome(e, s, tx).writes);
            && SerialOutcome(e, s, tx).result.status == Success && ThreeAccounts(e, tx)
            && Supply(after, [a, b, c]) == Supply(s, [a, b, c]) == 21000
  {
    hide Val, BalanceKey, NonceKey, TotalCost, Execute, ApplyBase, Supply, GasUsed, Fee, GasPaid, GasCarry, Funded,
         Balance;
    var value: U256 := [TOP, TOP, TOP, TOP];
    var f := Funded(a, FromU64(20999));
    var e, s, tx := Setting(m, c), f[BalanceKey(b) := FromU64(1)], Transfer(a, b, value, 21000);
    TopVal();
    OneLimbVal(20999);
    OneLimbVal(1);
    FundedSeen(a, FromU64(20999));
    BalancePut(f, b, FromU64(1), a);
    BalancePut(f, b, FromU64(1), b);
    BalancePut(f, b, FromU64(1), c);
    KeysApart(a, b);
    KeysApart(b, a);
    GasOfCall(m, tx);
    CostOf(tx);
    CostLow(tx);
    ReduceOnce(Val(value) + 21000, 20999);
    Succeeds(e, s, tx);
    SupplyThree(s, a, b, c);
    ReduceOnce(1 + Val(value), 0);
    SupplyMoves(e, s, tx, [a, b, c]);
  }

  /** A sender who mines the block keeps the fee and is not charged: the supply grows. */
  lemma SelfMiningMints(m: Machine, a: Address, b: Address, c: Address)
    requires m.code == map[] && a != b && a != c && b != c
    ensures var e, s, tx := Setting(m, a), Funded(a, FromU64(21000)), Transfer(a, b, ZERO, 21000);
            && SerialOutcome(e, s, tx).result.status == Success
            && Supply(ApplyBase(s, SerialOutcome(e, s, tx).writes), [a, b, c]) == Supply(s, [a, b, c]) + 21000
  {
    hide Val, BalanceKey, NonceKey, TotalCost, Execute, ApplyBase, Supply, GasUsed, Fee, GasPaid, GasCarry, Funded,
         Balance;
    var e, s, tx := Setting(m, a), Funded(a, FromU64(21000)), Transfer(a, b, ZERO, 21000);
    OneLimbVal(21000);
    OneLimb(ZERO);
    FundedSeen(a, FromU64(21000));
    GasOfCall(m, tx);
    CostOf(tx);
    Succeeds(e, s, tx);
    SupplyThree(s, a, b, c);
    SupplyMoves(e, s, tx, [a, b, c]);
  }

  // ---------------------------------------------------------------- whole runs

  /** By how much a transaction moves the supply; one that fails does not. */
  function Moves(e: Setting, s: Base, tx: Tx): int {
    if SerialOutcome(e, s, tx).result.status == Success then Drift(e, s, tx) else 0
  }

  lemma StepMoves(e: Setting, s: Base, tx: Tx, who: seq<Address>)
    requires Distinct(who) && Known(e, tx, who)
    ensures Supply(ApplyBase(s, SerialOutcome(e, s, tx).writes), who) == Supply(s, who) + Moves(e, s, tx)
  {
    hide Val, Supply, Balance, AllWrites, AllReads, Drift, TotalCost, WriteSetOf;
    var out := SerialOutcome(e, s, tx);
    if out.result.status == Success {
      SupplyMoves(e, s, tx, who);
    } else {
      assert out.writes == [];
    }
  }

  /** No transaction of the run moves the supply where serial execution runs it. */
  ghost predicate Balanced(e: Setting, s: Base, txs: seq<Tx>) {
    forall i :: 0 <= i < |txs| ==> BalancedAt(e, s, txs, i)
  }

  predicate BalancedAt(e: Setting, s: Base, txs: seq<Tx>, i: nat)
    requires i < |txs|
  {
    Moves(e, SerialState(e, s, txs[..i]), txs[i]) == 0
  }

  ghost predicate AllKnown(e: Setting, txs: seq<Tx>, who: seq<Address>) {
    forall i :: 0 <= i < |txs| ==> Known(e, txs[i], who)
  }

  ghost predicate KeepsSupply(e: Setting, s: Base, txs: seq<Tx>, who: seq<Address>, n: nat)
    requires n <= |txs|
  {
    Supply(SerialState(e, s, txs[..n]), who) == Supply(s, who)
  }

  lemma PrefixMoves(e: Setting, s: Base, txs: seq<Tx>, who: seq<Address>, i: nat)
    requires Distinct(who) && AllKnown(e, txs, who) && i < |txs|
    ensures Supply(SerialState(e, s, txs[..i + 1]), who) ==
            Supply(SerialState(e, s, txs[..i]), who) + Moves(e, SerialState(e, s, txs[..i]), txs[i])
  {
    hide Known, Supply, SerialOutcome, ApplyBase, Moves;
    assert Known(e, txs[i], who);
    var upTo := txs[..i + 1];
    assert upTo[..i] == txs[..i] && upTo[i] == txs[i];
    StepMoves(e, SerialState(e, s, txs[..i]), txs[i], who);
  }

  lemma {:induction false} BalancedKeeps(e: Setting, s: Base, txs: seq<Tx>, who: seq<Address>, n: nat)
    requires Distinct(who) && AllKnown(e, txs, who) && n <= |txs| && Balanced(e, s, txs)
    ensures KeepsSupply(e, s, txs, who, n)
  {
    hide Known, Supply, SerialOutcome, ApplyBase, Moves;
    if n > 0 {
      BalancedKeeps(e, s, txs, who, n - 1);
      assert BalancedAt(e, s, txs, n - 1);
      PrefixMoves(e, s, txs, who, n - 1);
    } else {
      assert txs[..0] == [];
    }
  }

  /** The supply stays the same throughout a serial run exactly when every transaction is balanced at its turn. */
  lemma RunConserves(e: Setting, s: Base, txs: seq<Tx>, who: seq<Address>)
    requires Distinct(who) && AllKnown(e, txs, who)
    ensures (forall n :: 0 <= n <= |txs| ==> KeepsSupply(e, s, txs, who, n)) <==> Balanced(e, s, txs)
  {
    hide Known, Supply, SerialState, Moves;
    if Balanced(e, s, txs) {
      forall n | 0 <= n <= |txs| ensures KeepsSupply(e, s, txs, who, n) {
        BalancedKeeps(e, s, txs, who, n);
      }
    }
    if forall n :: 0 <= n <= |txs| ==> KeepsSupply(e, s, txs, who, n) {
      forall i | 0 <= i < |txs| ensures BalancedAt(e, s, txs, i) {
        assert KeepsSupply(e, s, txs, who, i) && KeepsSupply(e, s, txs, who, i + 1);
        PrefixMoves(e, s, txs, who, i);
      }
    }
  }

  // ---------------------------------------------------------------- a condition on each transaction alone

  /** The gas limit covers the gas used, and the whole cost fits one limb. */
  predicate Sized(m: Machine, tx: Tx) {
    GasUsed(m, tx) <= tx.gasLimit && Val(tx.value) + tx.gasLimit * tx.gasPrice[0] < U64_LIMIT
  }

  lemma SizedCarries(m: Machine, tx: Tx)
    requires Sized(m, tx)
    ensures GasCarry(m, tx) == 0 && CostCarry(tx) == 0 && Upper(tx.value) == 0
  {
    hide GasUsed, Val, GasCarry;
    MulMonotone(GasUsed(m, tx), tx.gasLimit, tx.gasPrice[0]);
    GasCarryExact(m, tx);
    UpperSplits(tx.value);
  }

  /** A sized call among three accounts does not move the supply, whether it goes through or fails. */
  lemma SizedCallBalances(e: Setting, s: Base, tx: Tx)
    requires Sized(e.machine, tx) && ThreeAccounts(e, tx)
    requires Balance(s, tx.from) < U128_LIMIT && Balance(s, tx.to.value) < U128_LIMIT &&
             Balance(s, e.coinbase) < U128_LIMIT
    ensures Moves(e, s, tx) == 0
  {
    hide Val, GasUsed, TotalCost, BalanceKey, NonceKey, GasCarry, GasPaid, Sized, Execute, Drift, RefundWraps, FeeWraps,
         Balance, Upper, Unborrowed, CostCarry, Fee;
    SizedCarries(e.machine, tx);
    if SerialOutcome(e, s, tx).result.status == Success {
      SuccessSolvent(e, s, tx);
      SolventBorrows(s, tx);
      SmallNoWraps(e, s, tx);
      UpperSplits(tx.value);
      CallDrift(e, s, tx);
    }
  }

  /** Any serial run of sized calls among three accounts each, from a supply below 2^128, keeps the supply. */
  lemma {:induction false} SizedRunConserves(e: Setting, s: Base, txs: seq<Tx>, who: seq<Address>, n: nat)
    requires Distinct(who) && AllKnown(e, txs, who) && Supply(s, who) < U128_LIMIT && n <= |txs|
    requires forall i :: 0 <= i < |txs| ==> Sized(e.machine, txs[i]) && ThreeAccounts(e, txs[i])
    ensures KeepsSupply(e, s, txs, who, n)
  {
    hide Supply, SerialOutcome, ApplyBase, Moves, Sized, Distinct;
    if n > 0 {
      SizedRunConserves(e, s, txs, who, n - 1);
      var before, tx := SerialState(e, s, txs[..n - 1]), txs[n - 1];
      assert Known(e, tx, who);
      SupplyCovers(before, who, tx.from);
      SupplyCovers(before, who, tx.to.value);
      SupplyCovers(before, who, e.coinbase);
      SizedCallBalances(e, before, tx);
      PrefixMoves(e, s, txs, who, n - 1);
    } else {
      assert txs[..0] == [];
    }
  }

  // ---------------------------------------------------------------- runs of blocks

  ghost predicate BlocksKnown(m: Machine, blocks: seq<Block>, who: seq<Address>) {
    forall i :: 0 <= i < |blocks| ==> AllKnown(Setting(m, blocks[i].coinbase), Numbered(blocks[i]), who)
  }

  ghost predicate BlockBalanced(m: Machine, s: Base, blocks: seq<Block>, i: nat)
    requires i < |blocks|
  {
    Balanced(Setting(m, blocks[i].coinbase), SerialBlocks(m, s, blocks[..i]), Numbered(blocks[i]))
  }

  /** The supply is the initial one after each transaction of block `i`. */
  ghost predicate BlockKeeps(m: Machine, s: Base, blocks: seq<Block>, who: seq<Address>, i: nat)
    requires i < |blocks|
  {
    var e, t, txs := Setting(m, blocks[i].coinbase), SerialBlocks(m, s, blocks[..i]), Numbered(blocks[i]);
    Supply(t, who) == Supply(s, who) && forall n :: 0 <= n <= |txs| ==> KeepsSupply(e, t, txs, who, n)
  }

  lemma {:induction false} BlocksKeep(m: Machine, s: Base, blocks: seq<Block>, who: seq<Address>, n: nat)
    requires Distinct(who) && BlocksKnown(m, blocks, who) && n <= |blocks|
    requires forall i :: 0 <= i < n ==> BlockBalanced(m, s, blocks, i)
    ensures Supply(SerialBlocks(m, s, blocks[..n]), who) == Supply(s, who)
  {
    hide Balanced, Supply, SerialState, Numbered, AllKnown;
    if n > 0 {
      BlocksKeep(m, s, blocks, who, n - 1);
      var b, t := blocks[n - 1], SerialBlocks(m, s, blocks[..n - 1]);
      assert BlockBalanced(m, s, blocks, n - 1);
      RunConserves(Setting(m, b.coinbase), t, Numbered(b), who);
      assert KeepsSupply(Setting(m, b.coinbase), t, Numbered(b), who, |Numbered(b)|);
      assert Numbered(b)[..|Numbered(b)|] == Numbered(b);
      assert blocks[..n][..n - 1] == blocks[..n - 1];
    } else {
      assert blocks[..0] == [];
    }
  }

  /** The supply stays the same throughout a run of blocks exactly when every transaction is balanced at its turn. */
  lemma BlocksConserve(m: Machine, s: Base, blocks: seq<Block>, who: seq<Address>)
    requires Distinct(who) && BlocksKnown(m, blocks, who)
    ensures (forall i :: 0 <= i < |blocks| ==> BlockKeeps(m, s, blocks, who, i)) <==>
            (forall i :: 0 <= i < |blocks| ==> BlockBalanced(m, s, blocks, i))
  {
    hide Balanced, Supply, SerialBlocks, Numbered, AllKnown, KeepsSupply;
    if forall i :: 0 <= i < |blocks| ==> BlockBalanced(m, s, blocks, i) {
      forall i | 0 <= i < |blocks| ensures BlockKeeps(m, s, blocks, who, i) {
        BlocksKeep(m, s, blocks, who, i);
        assert BlockBalanced(m, s, blocks, i);
        RunConserves(Setting(m, blocks[i].coinbase), SerialBlocks(m, s, blocks[..i]), Numbered(blocks[i]), who);
      }
    }
    if forall i :: 0 <= i < |blocks| ==> BlockKeeps(m, s, blocks, who, i) {
      forall i | 0 <= i < |blocks| ensures BlockBalanced(m, s, blocks, i) {
        assert BlockKeeps(m, s, blocks, who, i);
        RunConserves(Setting(m, blocks[i].coinbase), SerialBlocks(m, s, blocks[..i]), Numbered(blocks[i]), who);
      }
    }
  }

  // ---------------------------------------------------------------- when the last writes agree, in numbers

  /** A mining sender's refund and credit agree exactly for these amounts. */
  lemma MinerSettles(e: Setting, s: Base, tx: Tx)
    requires tx.from == e.coinbase
    ensures var view := PlainView(s);
            Refunded(e.machine, tx, view) == Credited(e.machine, tx, e.coinbase, view) <==>
            tx.value[0] as int + 2 * Fee(e.machine, tx) == Carries(e.machine, s, tx) * U64_LIMIT
  {
    hide Val, Refunded, Credited, Fee, Carries, RefundWraps, FeeWraps, Balance;
    var a, b := Refunded(e.machine, tx, PlainView(s)), Credited(e.machine, tx, e.coinbase, PlainView(s));
    Settlement(e, s, tx);
    CarriesAtMost(e.machine, s, tx);
    SameWord(a, b);
  }

  lemma SameWord(a: U256, b: U256)
    ensures a == b <==> Val(a) == Val(b)
    ensures Val(a) < U256_LIMIT && Val(b) < U256_LIMIT
  {
    ValBound(a);
    ValBound(b);
    if Val(a) == Val(b) {
      ValInjective(a, b);
    }
  }

  /** Someone who calls itself with value has credit and refund agree exactly for these amounts. */
  lemma SelfPaymentSettles(e: Setting, s: Base, tx: Tx)
    requires tx.to == Some(tx.from)
    ensures var view := PlainView(s);
            BodyBalance(tx, view) == Refunded(e.machine, tx, view) <==>
            var owed := Val(tx.value) + tx.value[0] + Fee(e.machine, tx) - Carries(e.machine, s, tx) * U64_LIMIT;
            owed == 0 || owed == U256_LIMIT
  {
    hide Val, Refunded, Credited, Fee, Carries, RefundWraps, FeeWraps, WrappingAdd, BalanceKey;
    var a, b := Refunded(e.machine, tx, PlainView(s)), BodyBalance(tx, PlainView(s));
    Settlement(e, s, tx);
    CarriesAtMost(e.machine, s, tx);
    AddWraps(BalanceIn(PlainView(s), tx.from), tx.value);
    SameWord(a, b);
  }
}
