/** Stake bookkeeping and quorums. */
module Validators {
  import opened Common

  /** A compressed BLS12-381 public key. */
  type ValidatorId = v: seq<Byte> | |v| == 48 witness seq(48, _ => 0)

  type Stakes = map<ValidatorId, U64>

  // ---------------------------------------------------------------- stake sums

  ghost function StakeOf(m: Stakes, v: ValidatorId): nat {
    if v in m then m[v] else 0
  }

  /** The stake held by the members of `s`; ids outside the set weigh nothing. */
  ghost function StakeSum(m: Stakes, s: set<ValidatorId>): nat {
    if s == {} then 0 else
      var v :| v in s;
      StakeOf(m, v) + StakeSum(m, s - {v})
  }

  ghost function Total(m: Stakes): nat {
    StakeSum(m, m.Keys)
  }

  lemma {:induction false} SumRemove(m: Stakes, s: set<ValidatorId>, v: ValidatorId)
    requires v in s
    ensures StakeSum(m, s) == StakeOf(m, v) + StakeSum(m, s - {v})
    decreases |s|
  {
    var w :| w in s && StakeSum(m, s) == StakeOf(m, w) + StakeSum(m, s - {w});
    if w != v {
      SumRemove(m, s - {w}, v);
      SumRemove(m, s - {v}, w);
      assert s - {w} - {v} == s - {v} - {w};
    }
  }

  lemma {:induction false} SumMonotone(m: Stakes, a: set<ValidatorId>, b: set<ValidatorId>)
    requires a <= b
    ensures StakeSum(m, a) <= StakeSum(m, b)
    decreases |b|
  {
    if a != {} {
      var v :| v in a;
      SumRemove(m, a, v);
      SumRemove(m, b, v);
      SumMonotone(m, a - {v}, b - {v});
    }
  }

  lemma {:induction false} SumUnion(m: Stakes, a: set<ValidatorId>, b: set<ValidatorId>)
    ensures StakeSum(m, a) + StakeSum(m, b) == StakeSum(m, a + b) + StakeSum(m, a * b)
    decreases |b|
  {
    hide StakeSum, StakeOf;
    if b == {} {
      assert a + b == a && a * b == {};
    } else {
      var v :| v in b;
      SumRemove(m, b, v);
      SumUnion(m, a, b - {v});
      if v in a {
        assert a + (b - {v}) == a + b && a * (b - {v}) == a * b - {v};
        SumRemove(m, a * b, v);
      } else {
        assert a + (b - {v}) == a + b - {v} && a * (b - {v}) == a * b;
        SumRemove(m, a + b, v);
      }
    }
  }

  lemma {:induction false} SumIgnoresOthers(m: Stakes, s: set<ValidatorId>)
    ensures StakeSum(m, s) == StakeSum(m, s * m.Keys)
    decreases |s|
  {
    hide StakeSum;
    if s != {} {
      var v :| v in s;
      SumRemove(m, s, v);
      SumIgnoresOthers(m, s - {v});
      if v in m {
        assert (s - {v}) * m.Keys == s * m.Keys - {v};
        SumRemove(m, s * m.Keys, v);
      } else {
        assert (s - {v}) * m.Keys == s * m.Keys;
      }
    } else {
      assert s * m.Keys == {};
    }
  }

  /** No voter set outweighs the whole validator set. */
  lemma SumAtMostTotal(m: Stakes, s: set<ValidatorId>)
    ensures StakeSum(m, s) <= Total(m)
  {
    SumIgnoresOthers(m, s);
    SumMonotone(m, s * m.Keys, m.Keys);
  }

  lemma {:induction false} SumAgrees(m: Stakes, n: Stakes, s: set<ValidatorId>)
    requires forall v :: v in s ==> StakeOf(m, v) == StakeOf(n, v)
    ensures StakeSum(m, s) == StakeSum(n, s)
    decreases |s|
  {
    if s != {} {
      var v :| v in s;
      SumRemove(m, s, v);
      SumRemove(n, s, v);
      SumAgrees(m, n, s - {v});
    }
  }

  lemma TotalAfterAdd(m: Stakes, v: ValidatorId, stake: U64)
    ensures Total(m[v := stake]) == Total(m) - StakeOf(m, v) + stake
  {
    var n := m[v := stake];
    SumRemove(n, n.Keys, v);
    assert n.Keys - {v} == m.Keys - {v};
    SumAgrees(m, n, m.Keys - {v});
    if v in m {
      SumRemove(m, m.Keys, v);
    } else {
      assert m.Keys - {v} == m.Keys;
    }
  }

  lemma TotalAfterRemove(m: Stakes, v: ValidatorId)
    requires v in m
    ensures Total(m - {v}) == Total(m) - m[v]
  {
    SumRemove(m, m.Keys, v);
    assert (m - {v}).Keys == m.Keys - {v};
    SumAgrees(m, m - {v}, m.Keys - {v});
  }

  // ---------------------------------------------------------------- thresholds

  /** `total * 2 / 3 + 1` on `u64`, with the product wrapping. */
  function QuorumThreshold(total: U64): U64 {
    Wrap(total * 2) / 3 + 1
  }

  function FaultThreshold(total: U64): U64 {
    total / 3
  }

  ghost predicate IsQuorum(m: Stakes, total: U64, voters: set<ValidatorId>) {
    Wrap(StakeSum(m, voters)) >= QuorumThreshold(total)
  }

  /** Any two quorums share more stake than the faulty validators may hold. */
  ghost predicate QuorumsIntersect(m: Stakes, total: U64) {
    forall a, b :: IsQuorum(m, total, a) && IsQuorum(m, total, b) ==>
      StakeSum(m, a * b) > FaultThreshold(total)
  }

  /** While doubling the total does not overflow, a quorum is a voter set with more than two thirds of the stake. */
  lemma QuorumIsTwoThirds(m: Stakes, total: U64, voters: set<ValidatorId>)
    requires Total(m) == total && total * 2 < U64_LIMIT
    ensures IsQuorum(m, total, voters) <==> 3 * StakeSum(m, voters) > 2 * total
  {
    SumAtMostTotal(m, voters);
    WrapSmall(total * 2);
    WrapSmall(StakeSum(m, voters));
  }

  /** The fault threshold is the most stake that is no more than a third of the total. */
  lemma FaultIsThird(total: U64, f: nat)
    ensures f <= FaultThreshold(total) <==> 3 * f <= total
  {
  }

  /** A larger voter set keeps its quorum. */
  lemma QuorumMonotone(m: Stakes, total: U64, a: set<ValidatorId>, b: set<ValidatorId>)
    requires Total(m) < U64_LIMIT && a <= b && IsQuorum(m, total, a)
    ensures IsQuorum(m, total, b)
  {
    SumMonotone(m, a, b);
    SumAtMostTotal(m, a);
    SumAtMostTotal(m, b);
  }

  lemma ThirdsOverlap(total: nat, a: nat, b: nat, union: nat, shared: nat)
    requires a >= total * 2 / 3 + 1 && b >= total * 2 / 3 + 1
    requires a + b == union + shared && union <= total
    ensures shared > total / 3
  {
  }

  /** Quorums intersect whenever doubling the total does not overflow. */
  lemma QuorumIntersection(m: Stakes, total: U64)
    requires Total(m) == total && total * 2 < U64_LIMIT
    ensures QuorumsIntersect(m, total)
  {
    hide Wrap, StakeSum;
    WrapSmall(total * 2);
    forall a, b | IsQuorum(m, total, a) && IsQuorum(m, total, b)
      ensures StakeSum(m, a * b) > FaultThreshold(total)
    {
      SumUnion(m, a, b);
      SumAtMostTotal(m, a);
      SumAtMostTotal(m, b);
      SumAtMostTotal(m, a + b);
      WrapSmall(StakeSum(m, a));
      WrapSmall(StakeSum(m, b));
      ThirdsOverlap(total, StakeSum(m, a), StakeSum(m, b), StakeSum(m, a + b), StakeSum(m, a * b));
    }
  }

  /** Two validators, each a quorum on its own, once doubling the total wraps. */
  lemma OverflowSplitsQuorums(total: U64, v: ValidatorId, w: ValidatorId)
    requires total * 2 >= U64_LIMIT && v != w
    ensures var m: Stakes := map[v := total / 2, w := total - total / 2];
            Total(m) == total && !QuorumsIntersect(m, total)
  {
    var half: U64 := total / 2;
    var rest: U64 := total - half;
    var m: Stakes := map[v := half, w := rest];
    assert m.Keys == {v, w};
    SumRemove(m, {v, w}, v);
    assert {v, w} - {v} == {w};
    SumRemove(m, {w}, w);
    SumRemove(m, {v}, v);
    assert {w} - {w} == {} && {v} - {v} == {};
    assert {v} * {w} == {};
    assert Wrap(total * 2) == total * 2 - U64_LIMIT;
    assert IsQuorum(m, total, {v}) && IsQuorum(m, total, {w});
    assert StakeSum(m, {v} * {w}) == 0;
  }

  lemma SumTwo(m: Stakes, v: ValidatorId, w: ValidatorId)
    requires v in m && w in m && v != w
    ensures StakeSum(m, {v, w}) == m[v] as int + m[w] && StakeSum(m, {v}) == m[v]
  {
    hide StakeSum;
    SumRemove(m, {v, w}, v);
    assert {v, w} - {v} == {w};
    SumRemove(m, {w}, w);
    SumRemove(m, {v}, v);
    assert {w} - {w} == {} && {v} - {v} == {};
    SumNone(m);
  }

  lemma SumNone(m: Stakes)
    ensures StakeSum(m, {}) == 0
  {
  }

  /** Every cached total but the largest hides a sum that overflows, with two validators each a quorum on its own. */
  lemma CachedTotalHidesSum(total: U64, v: ValidatorId, w: ValidatorId)
    requires total as int + 1 < U64_LIMIT && v != w
    ensures var m: Stakes := map[v := U64_LIMIT - 1, w := total + 1];
            Wrap(Total(m)) == total && IsQuorum(m, total, {v}) && IsQuorum(m, total, {w}) && !QuorumsIntersect(m, total)
  {
    hide StakeSum;
    var m: Stakes := map[v := U64_LIMIT - 1, w := total + 1];
    assert m.Keys == {v, w};
    SumTwo(m, v, w);
    SumTwo(m, w, v);
    assert {v, w} == {w, v};
    WrapShift(total, 1);
    WrapSmall(total);
    assert Wrap(total * 2) <= total * 2;
    WrapSmall(U64_LIMIT - 1);
    WrapSmall(total + 1);
    assert {v} * {w} == {};
    SumNone(m);
  }

  /** The cached total alone guarantees nothing: for each of its values some set has disjoint quorums. */
  lemma CachedTotalSaysNothing(total: U64)
    ensures exists m: Stakes :: Wrap(Total(m)) == total && !QuorumsIntersect(m, total)
  {
    hide QuorumsIntersect, Wrap, IsQuorum;
    var v: ValidatorId, w: ValidatorId := seq(48, _ => 0), seq(48, _ => 1);
    assert v[0] != w[0];
    if total as int + 1 < U64_LIMIT {
      CachedTotalHidesSum(total, v, w);
    } else {
      OverflowSplitsQuorums(total, v, w);
      WrapSmall(total);
    }
  }

  /** Once the sum overflows, one more voter can undo a quorum. */
  lemma OverflowLosesQuorum(total: U64, v: ValidatorId, w: ValidatorId, x: ValidatorId)
    requires total > 0 && v != w && v != x && w != x
    ensures var m: Stakes := map[v := U64_LIMIT - 1, w := 1, x := total];
            Wrap(Total(m)) == total && IsQuorum(m, total, {v}) && !IsQuorum(m, total, {v, w})
  {
    hide StakeSum;
    var m: Stakes := map[v := U64_LIMIT - 1, w := 1, x := total];
    assert m.Keys == {v, w, x} && {v, w, x} - {x} == {v, w};
    SumRemove(m, m.Keys, x);
    SumTwo(m, v, w);
    WrapShift(total, 1);
    WrapSmall(total);
    WrapSmall(U64_LIMIT - 1);
    WrapShift(0, 1);
    WrapSmall(0);
  }

  /** Exactly the sums below 2^63 make every validator set's quorums intersect; the condition is on the sum of the
      stakes, not on the cached total, which may have wrapped. */
  lemma QuorumIntersectionExact(total: U64)
    ensures (forall m: Stakes :: Total(m) == total ==> QuorumsIntersect(m, total)) <==> total * 2 < U64_LIMIT
  {
    if total * 2 < U64_LIMIT {
      forall m: Stakes | Total(m) == total ensures QuorumsIntersect(m, total) {
        QuorumIntersection(m, total);
      }
    } else {
      var v: ValidatorId, w: ValidatorId := seq(48, _ => 0), seq(48, _ => 1);
      assert v[0] != w[0];
      OverflowSplitsQuorums(total, v, w);
    }
  }

  // ---------------------------------------------------------------- the set

  class ValidatorSet {
    var validators: Stakes
    var totalStake: U64

    /** Every stake is positive and the cached total is the sum, as `u64` counts it. */
    ghost predicate Valid()
      reads this
    {
      && (forall v :: v in validators ==> validators[v] > 0)
      && totalStake == Wrap(Total(validators))
    }

    constructor ()
      ensures Valid() && validators == map[]
    {
      validators, totalStake := map[], 0;
    }

    method Add(id: ValidatorId, stake: U64)
      requires Valid()
      modifies this
      ensures Valid()
      ensures validators == if stake == 0 then old(validators) else old(validators)[id := stake]
    {
      if stake == 0 {
        return;
      }
      hide Wrap;
      TotalAfterAdd(validators, id, stake);
      if id in validators {
        ghost var held: int := validators[id];
        WrapAdd(Total(validators), -held);
        WrapAdd(Total(validators) - validators[id], stake);
        totalStake := Wrap(Wrap(totalStake - validators[id]) + stake);
      } else {
        WrapAdd(Total(validators), stake);
        totalStake := Wrap(totalStake + stake);
      }
      validators := validators[id := stake];
    }

    method Remove(id: ValidatorId) returns (r: Option<U64>)
      requires Valid()
      modifies this
      ensures Valid()
      ensures validators == old(validators) - {id} && r == Lookup(old(validators), id)
    {
      hide Wrap;
      r := Lookup(validators, id);
      if id in validators {
        TotalAfterRemove(validators, id);
        ghost var held: int := validators[id];
        WrapAdd(Total(validators), -held);
        totalStake := Wrap(totalStake - validators[id]);
        validators := validators - {id};
      }
    }

    /** With no overflow the cached total is the sum itself. */
    lemma CachedTotal()
      requires Valid() && Total(validators) < U64_LIMIT
      ensures totalStake == Total(validators)
    {
    }
  }

  method StakeFor(m: Stakes, voters: set<ValidatorId>) returns (stake: U64)
    ensures stake == Wrap(StakeSum(m, voters))
  {
    stake := 0;
    var rest := voters;
    ghost var counted := 0;
    hide Wrap;
    assert Wrap(0) == 0 by { WrapSmall(0); }
    while rest != {}
      invariant rest <= voters
      invariant counted + StakeSum(m, rest) == StakeSum(m, voters) && stake == Wrap(counted)
      decreases |rest|
    {
      var v :| v in rest;
      SumRemove(m, rest, v);
      if v in m {
        WrapAdd(counted, m[v]);
        stake := Wrap(stake + m[v]);
        counted := counted + m[v];
      }
      rest := rest - {v};
    }
  }

  method HasQuorum(m: Stakes, total: U64, voters: set<ValidatorId>) returns (r: bool)
    ensures r <==> IsQuorum(m, total, voters)
    ensures Total(m) == total && total * 2 < U64_LIMIT ==> (r <==> 3 * StakeSum(m, voters) > 2 * total)
  {
    if Total(m) == total && total * 2 < U64_LIMIT {
      QuorumIsTwoThirds(m, total, voters);
    }
    var stake := StakeFor(m, voters);
    r := stake >= QuorumThreshold(total);
  }

  // ---------------------------------------------------------------- tracking support

  /** Support for one target by a fixed validator set. */
  class QuorumTracker {
    const stakes: Stakes
    const total: U64
    var supporters: set<ValidatorId>

    constructor (stakes: Stakes, total: U64)
      ensures this.stakes == stakes && this.total == total && supporters == {}
    {
      this.stakes, this.total, supporters := stakes, total, {};
    }

    method AddSupport(v: ValidatorId) returns (reached: bool)
      modifies this`supporters
      ensures supporters == old(supporters) + {v}
      ensures reached <==> !IsQuorum(stakes, total, old(supporters)) && IsQuorum(stakes, total, supporters)
    {
      var was := HasQuorum(stakes, total, supporters);
      supporters := supporters + {v};
      var now := HasQuorum(stakes, total, supporters);
      reached := !was && now;
    }
  }

  lemma NobodyIsNoQuorum(m: Stakes, total: U64)
    ensures !IsQuorum(m, total, {})
  {
  }

  /** Over any run of supports, exactly one call reports the quorum if it is reached, and none otherwise. */
  method TrackAll(tracker: QuorumTracker, votes: seq<ValidatorId>) returns (reports: nat)
    requires tracker.supporters == {} && Total(tracker.stakes) < U64_LIMIT
    modifies tracker`supporters
    ensures tracker.supporters == set v | v in votes
    ensures reports == if IsQuorum(tracker.stakes, tracker.total, set v | v in votes) then 1 else 0
  {
    hide IsQuorum;
    reports := 0;
    NobodyIsNoQuorum(tracker.stakes, tracker.total);
    for i := 0 to |votes|
      invariant tracker.supporters == set v | v in votes[..i]
      invariant reports == if IsQuorum(tracker.stakes, tracker.total, tracker.supporters) then 1 else 0
    {
      assert votes[..i + 1] == votes[..i] + [votes[i]];
      ghost var before := tracker.supporters;
      var reached := tracker.AddSupport(votes[i]);
      if IsQuorum(tracker.stakes, tracker.total, before) {
        QuorumMonotone(tracker.stakes, tracker.total, before, tracker.supporters);
      }
      if reached {
        reports := reports + 1;
      }
    }
    assert votes[..|votes|] == votes;
  }
}
