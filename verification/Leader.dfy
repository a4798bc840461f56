/** Deterministic stake-weighted leader election. */
module Leader {
  import opened Common
  import opened Sorting
  import opened Validators
  import opened Words

  type Weighted = (ValidatorId, U64)

  /** The order of `sort_by_key(|(id, _)| id.0)`. */
  predicate IdLeq(a: Weighted, b: Weighted) {
    LexLeq(a.0, b.0)
  }

  lemma IdLeqOrders()
    ensures TotalPreorder(IdLeq)
  {
    forall a: Weighted, b: Weighted ensures IdLeq(a, b) || IdLeq(b, a) {
      LexTotal(a.0, b.0);
    }
    forall a: Weighted, b: Weighted, c: Weighted | IdLeq(a, b) && IdLeq(b, c) ensures IdLeq(a, c) {
      LexTransitive(a.0, b.0, c.0);
    }
  }

  // ---------------------------------------------------------------- enumerations of a map

  /** `e` lists every validator of `m` once, in some order. */
  ghost predicate Enumerates(e: seq<Weighted>, m: Stakes) {
    && (forall i, j :: 0 <= i < j < |e| ==> e[i].0 != e[j].0)
    && (forall i :: 0 <= i < |e| ==> e[i].0 in m && m[e[i].0] == e[i].1)
    && (forall v :: v in m ==> (v, m[v]) in e)
  }

  /** One arbitrary iteration over the hash map. */
  method Iterate(m: Stakes) returns (e: seq<Weighted>)
    ensures Enumerates(e, m)
  {
    e := [];
    var rest := m.Keys;
    while rest != {}
      invariant rest <= m.Keys
      invariant forall i, j :: 0 <= i < j < |e| ==> e[i].0 != e[j].0
      invariant forall i :: 0 <= i < |e| ==> e[i].0 in m && e[i].0 !in rest && m[e[i].0] == e[i].1
      invariant forall v :: v in m.Keys - rest ==> (v, m[v]) in e
      decreases |rest|
    {
      var v :| v in rest;
      e := e + [(v, m[v])];
      rest := rest - {v};
    }
  }

  lemma EnumerationsMatch(a: seq<Weighted>, b: seq<Weighted>, m: Stakes)
    requires Enumerates(a, m) && Enumerates(b, m)
    ensures multiset(a) == multiset(b)
  {
    forall x ensures multiset(a)[x] == multiset(b)[x] {
      CountsOnce(a, m, x);
      CountsOnce(b, m, x);
    }
  }

  lemma CountsOnce(e: seq<Weighted>, m: Stakes, x: Weighted)
    requires Enumerates(e, m)
    ensures multiset(e)[x] == if x.0 in m && m[x.0] == x.1 then 1 else 0
  {
    if x in e {
      var i :| 0 <= i < |e| && e[i] == x;
      assert e == e[..i] + [x] + e[i + 1..];
      assert x !in e[..i] && x !in e[i + 1..];
    }
  }

  ghost function Weight(e: seq<Weighted>): nat {
    if e == [] then 0 else e[0].1 + Weight(e[1..])
  }

  lemma EnumerationTail(e: seq<Weighted>, m: Stakes)
    requires Enumerates(e, m) && e != []
    ensures Enumerates(e[1..], m - {e[0].0})
  {
    forall w | w in m && w != e[0].0 ensures (w, m[w]) in e[1..] {
      assert (w, m[w]) in e && e == [e[0]] + e[1..];
    }
  }

  lemma {:induction false} WeightIsTotal(e: seq<Weighted>, m: Stakes)
    requires Enumerates(e, m)
    ensures Weight(e) == Total(m)
  {
    assert forall v :: v in m ==> (v, m[v]) in e;
    if e == [] {
      assert m.Keys == {};
    } else {
      EnumerationTail(e, m);
      WeightIsTotal(e[1..], m - {e[0].0});
      TotalAfterRemove(m, e[0].0);
    }
  }

  // ---------------------------------------------------------------- the election

  /** The id-sorted listing of a validator set. */
  ghost function Canonical(m: Stakes): (e: seq<Weighted>) {
    if m == map[] then [] else
      var v :| v in m;
      Insert(IdLeq, (v, m[v]), Canonical(m - {v}))
  }

  lemma {:induction false} CanonicalLists(m: Stakes)
    ensures Sorted(IdLeq, Canonical(m)) && Enumerates(Canonical(m), m)
    decreases |m|
  {
    if m != map[] {
      var v :| v in m && Canonical(m) == Insert(IdLeq, (v, m[v]), Canonical(m - {v}));
      var rest := Canonical(m - {v});
      assert |m - {v}| == |m| - 1 by {
        assert (m - {v}).Keys == m.Keys - {v};
        assert |m| == |m.Keys| && |m - {v}| == |(m - {v}).Keys|;
      }
      CanonicalLists(m - {v});
      IdLeqOrders();
      InsertSorts(IdLeq, (v, m[v]), rest);
      EnumerationCons(rest, m, v);
      EnumerationPermuted([(v, m[v])] + rest, Canonical(m), m);
    }
  }

  lemma EnumerationCons(e: seq<Weighted>, m: Stakes, v: ValidatorId)
    requires v in m && Enumerates(e, m - {v})
    ensures Enumerates([(v, m[v])] + e, m)
  {
    var e2 := [(v, m[v])] + e;
    forall w | w in m ensures (w, m[w]) in e2 {
      if w == v {
        assert e2[0] == (v, m[v]);
      } else {
        assert (w, (m - {v})[w]) in e;
      }
    }
  }

  /** Rearranging an enumeration leaves an enumeration. */
  lemma EnumerationPermuted(a: seq<Weighted>, b: seq<Weighted>, m: Stakes)
    requires Enumerates(a, m) && multiset(a) == multiset(b)
    ensures Enumerates(b, m)
  {
    forall i, j | 0 <= i < j < |b| ensures b[i].0 != b[j].0 {
      assert b[i] in multiset(a) && b[j] in multiset(a);
      CountsOnce(a, m, b[i]);
      if b[i] == b[j] {
        OccursTwice(b, i, j);
      }
    }
    forall i | 0 <= i < |b| ensures b[i].0 in m && m[b[i].0] == b[i].1 {
      assert b[i] in multiset(a);
    }
    forall v | v in m ensures (v, m[v]) in b {
      assert (v, m[v]) in multiset(a);
    }
  }

  /** Sorting any iteration of the map gives the same listing. */
  lemma IterationOrderIrrelevant(e: seq<Weighted>, m: Stakes)
    requires Enumerates(e, m)
    ensures Sort(IdLeq, e) == Canonical(m)
  {
    IdLeqOrders();
    SortSorts(IdLeq, e);
    CanonicalLists(m);
    EnumerationsMatch(e, Canonical(m), m);
    var s := Sort(IdLeq, e);
    EnumerationPermuted(e, s, m);
    assert NoTies(IdLeq, s) by {
      forall x, y | x in s && y in s && IdLeq(x, y) && IdLeq(y, x) ensures x == y {
        LexTotal(x.0, y.0);
      }
    }
    SortedUnique(IdLeq, s, Canonical(m));
  }

  /** The validator whose stretch of the stake line covers `target`. */
  function Select(e: seq<Weighted>, target: nat): Option<ValidatorId> {
    if e == [] then None
    else if target < e[0].1 then Some(e[0].0)
    else Select(e[1..], target - e[0].1)
  }

  /** The scan of the code, whose running sum is taken modulo 2^64. */
  function ScanFrom(e: seq<Weighted>, cumulative: U64, target: nat): Option<ValidatorId> {
    if e == [] then None else
      var next := Wrap(cumulative as int + e[0].1);
      if next > target then Some(e[0].0) else ScanFrom(e[1..], next, target)
  }

  /** Short of overflow the scan selects by stretches of the stake line. */
  lemma {:induction false} ScanIsSelect(e: seq<Weighted>, cumulative: U64, target: nat)
    requires cumulative <= target && cumulative as int + Weight(e) < U64_LIMIT
    ensures ScanFrom(e, cumulative, target) == Select(e, target - cumulative)
  {
    if e != [] {
      WrapSmall(cumulative as int + e[0].1);
      if cumulative as int + e[0].1 <= target {
        ScanIsSelect(e[1..], cumulative as int + e[0].1, target);
      }
    }
  }

  /** The running sum ends at the wrapped total, so a target below that is met. */
  lemma {:induction false} ScanFinds(e: seq<Weighted>, cumulative: U64, target: nat)
    requires e != [] && target < Wrap(cumulative as int + Weight(e))
    ensures ScanFrom(e, cumulative, target).Some?
  {
    var next := Wrap(cumulative as int + e[0].1);
    WrapAdd(cumulative as int + e[0].1, Weight(e[1..]));
    if e[1..] == [] {
      WrapSmall(next);
    } else if next <= target {
      ScanFinds(e[1..], next, target);
    }
  }

  lemma {:induction false} ScanFindsMember(e: seq<Weighted>, cumulative: U64, target: nat)
    ensures ScanFrom(e, cumulative, target).Some? ==>
            exists i :: 0 <= i < |e| && e[i].0 == ScanFrom(e, cumulative, target).value
  {
    if e != [] {
      var next := Wrap(cumulative as int + e[0].1);
      if next > target {
        assert e[0].0 == ScanFrom(e, cumulative, target).value;
      } else {
        ScanFindsMember(e[1..], next, target);
        if ScanFrom(e, cumulative, target).Some? {
          var i :| 0 <= i < |e[1..]| && e[1..][i].0 == ScanFrom(e, cumulative, target).value;
          assert e[i + 1].0 == ScanFrom(e, cumulative, target).value;
        }
      }
    }
  }

  /** Little-endian bytes of a word, and back. */
  function ToLe(n: nat, width: nat): seq<Byte> {
    if width == 0 then [] else [n % 256] + ToLe(n / 256, width - 1)
  }

  function FromLe(b: seq<Byte>): nat {
    if b == [] then 0 else b[0] + 256 * FromLe(b[1..])
  }

  function RandomValue(sha: HashFn, round: U64, seed: Digest): nat {
    FromLe(sha(ToLe(round, 8) + seed)[..8])
  }

  /** The leader of a round: a function of the validator set, the round and the seed. */
  ghost function Elected(sha: HashFn, m: Stakes, total: U64, round: U64, seed: Digest): Option<ValidatorId> {
    if m == map[] || total == 0 then None
    else ScanFrom(Canonical(m), 0, Modulo(RandomValue(sha, round, seed), total))
  }

  function Modulo(x: nat, n: nat): (r: nat)
    requires n > 0
    ensures r < n
  {
    x % n
  }

  lemma NonEmptyWeighs(m: Stakes)
    requires m != map[] && forall v :: v in m ==> m[v] > 0
    ensures Total(m) > 0
  {
    var v :| v in m;
    SumRemove(m, m.Keys, v);
  }

  /** The cumulative scan of the election. */
  method Scan(validators: seq<Weighted>, target: nat) returns (r: Option<ValidatorId>)
    ensures r == ScanFrom(validators, 0, target)
    ensures Weight(validators) < U64_LIMIT ==> r == Select(validators, target)
  {
    var cumulative: U64 := 0;
    if Weight(validators) < U64_LIMIT {
      ScanIsSelect(validators, 0, target);
    }
    for i := 0 to |validators|
      invariant ScanFrom(validators, 0, target) == ScanFrom(validators[i..], cumulative, target)
    {
      cumulative := Wrap(cumulative as int + validators[i].1);
      if cumulative > target {
        return Some(validators[i].0);
      }
      assert validators[i..][1..] == validators[i + 1..];
    }
    r := None;
  }

  /** A zero total of a non-empty set would be a division by zero. */
  method ElectLeader(sha: HashFn, m: Stakes, total: U64, round: U64, seed: Digest) returns (r: Option<ValidatorId>)
    requires m != map[] ==> total != 0
    ensures r == Elected(sha, m, total, round, seed)
    ensures total == Wrap(Total(m)) ==> (r.Some? <==> m != map[]) && (r.Some? ==> r.value in m)
    ensures total == Total(m) && r.Some? ==>
            r.value in m && Covers(m, r.value, Modulo(RandomValue(sha, round, seed), total))
  {
    if total == Total(m) > 0 {
      WrapSmall(total);
      ElectsMember(sha, m, total, round, seed);
      ElectedExactly(sha, m, total, round, seed, Elected(sha, m, total, round, seed).value);
    }
    if total == Wrap(Total(m)) {
      ElectsMember(sha, m, total, round, seed);
    }
    if m == map[] {
      return None;
    }
    hide Total, Canonical, Enumerates, Sort;
    var validators := Iterate(m);
    IterationOrderIrrelevant(validators, m);
    validators := Sort(IdLeq, validators);
    r := Scan(validators, Modulo(RandomValue(sha, round, seed), total));
  }

  /** Every validator set whose cached total is not zero elects one of its members, overflowing sums included. */
  lemma ElectsMember(sha: HashFn, m: Stakes, total: U64, round: U64, seed: Digest)
    requires total == Wrap(Total(m))
    ensures var r := Elected(sha, m, total, round, seed);
            (r.Some? <==> total != 0) && (r.Some? ==> r.value in m)
    ensures m == map[] ==> total == 0
  {
    if m == map[] {
      assert m.Keys == {};
      WrapSmall(0);
    } else if total != 0 {
      CanonicalLists(m);
      WeightIsTotal(Canonical(m), m);
      var e, target := Canonical(m), Modulo(RandomValue(sha, round, seed), total);
      hide Total, Canonical, Wrap;
      ListsSomething(e, m);
      ScanFinds(e, 0, target);
      ScanFindsMember(e, 0, target);
    }
  }

  lemma ListsSomething(e: seq<Weighted>, m: Stakes)
    requires Enumerates(e, m) && m != map[]
    ensures e != []
  {
    var v :| v in m;
    assert (v, m[v]) in e;
  }

  lemma {:induction false} SelectInRange(e: seq<Weighted>, target: nat)
    ensures Select(e, target).Some? <==> target < Weight(e)
    ensures Select(e, target).Some? ==> exists i :: 0 <= i < |e| && e[i].0 == Select(e, target).value
  {
    if e != [] {
      if target < e[0].1 {
        assert e[0].0 == Select(e, target).value;
      } else {
        SelectInRange(e[1..], target - e[0].1);
        if Select(e, target).Some? {
          var i :| 0 <= i < |e[1..]| && e[1..][i].0 == Select(e, target).value;
          assert e[i + 1].0 == Select(e, target).value;
        }
      }
    }
  }

  // ---------------------------------------------------------------- exact weighting

  /** How many of the targets below `n` elect `v`. */
  ghost function Wins(e: seq<Weighted>, v: ValidatorId, n: nat): nat {
    if n == 0 then 0
    else Wins(e, v, n - 1) + (if ScanFrom(e, 0, n - 1) == Some(v) then 1 else 0)
  }

  /** The same by stretches of the stake line. */
  ghost function Stretch(e: seq<Weighted>, v: ValidatorId, n: nat): nat {
    if n == 0 then 0
    else Stretch(e, v, n - 1) + (if Select(e, n - 1) == Some(v) then 1 else 0)
  }

  lemma {:induction false} WinsAreStretch(e: seq<Weighted>, v: ValidatorId, n: nat)
    requires Weight(e) < U64_LIMIT
    ensures Wins(e, v, n) == Stretch(e, v, n)
  {
    if n > 0 {
      WinsAreStretch(e, v, n - 1);
      ScanIsSelect(e, 0, n - 1);
    }
  }

  lemma {:induction false} StretchSplits(e: seq<Weighted>, v: ValidatorId, n: nat)
    requires e != []
    ensures n <= e[0].1 ==> Stretch(e, v, n) == if e[0].0 == v then n else 0
    ensures n >= e[0].1 ==> Stretch(e, v, n) == Stretch(e, v, e[0].1) + Stretch(e[1..], v, n - e[0].1)
  {
    if n > 0 {
      StretchSplits(e, v, n - 1);
    }
  }

  lemma {:induction false} AbsentHasNone(e: seq<Weighted>, v: ValidatorId, n: nat)
    requires forall i :: 0 <= i < |e| ==> e[i].0 != v
    ensures Stretch(e, v, n) == 0
  {
    if n > 0 {
      AbsentHasNone(e, v, n - 1);
      SelectInRange(e, n - 1);
    }
  }

  lemma {:induction false} StretchIsWeight(e: seq<Weighted>, i: nat)
    requires i < |e| && forall i, j :: 0 <= i < j < |e| ==> e[i].0 != e[j].0
    ensures Stretch(e, e[i].0, Weight(e)) == e[i].1
  {
    var v := e[i].0;
    StretchSplits(e, v, Weight(e));
    StretchSplits(e, v, e[0].1);
    if i == 0 {
      AbsentHasNone(e[1..], v, Weight(e[1..]));
    } else {
      StretchIsWeight(e[1..], i - 1);
    }
  }

  /** How many of the targets below `n` elect a member of `s`. */
  ghost function WinsAmong(e: seq<Weighted>, s: set<ValidatorId>, n: nat): (w: nat)
    ensures w <= n
  {
    if n == 0 then 0 else
      var r := ScanFrom(e, 0, n - 1);
      WinsAmong(e, s, n - 1) + (if r.Some? && r.value in s then 1 else 0)
  }

  lemma {:induction false} WinsAmongSplit(e: seq<Weighted>, s: set<ValidatorId>, v: ValidatorId, n: nat)
    requires v in s
    ensures WinsAmong(e, s, n) == Wins(e, v, n) + WinsAmong(e, s - {v}, n)
  {
    if n > 0 {
      WinsAmongSplit(e, s, v, n - 1);
    }
  }

  lemma {:induction false} StakesAreWins(e: seq<Weighted>, m: Stakes, s: set<ValidatorId>, n: nat)
    requires s <= m.Keys && forall v :: v in s ==> Wins(e, v, n) == m[v]
    ensures StakeSum(m, s) <= WinsAmong(e, s, n)
    decreases |s|
  {
    hide Wins, WinsAmong;
    if s != {} {
      var v :| v in s;
      StakesAreWins(e, m, s - {v}, n);
      WinsAmongSplit(e, s, v, n);
      SumRemove(m, s, v);
    }
  }

  /** Each validator is elected by exactly as many of the possible targets as it has stake, if and only if the sum of
      the stakes fits 64 bits. */
  lemma ExactWeighting(m: Stakes)
    ensures (forall v :: v in m ==> Wins(Canonical(m), v, Wrap(Total(m))) == m[v]) <==> Total(m) < U64_LIMIT
  {
    var e, n := Canonical(m), Wrap(Total(m));
    CanonicalLists(m);
    WeightIsTotal(e, m);
    if Total(m) < U64_LIMIT {
      WrapSmall(Total(m));
      forall v | v in m ensures Wins(e, v, n) == m[v] {
        assert (v, m[v]) in e;
        var i :| 0 <= i < |e| && e[i] == (v, m[v]);
        StretchIsWeight(e, i);
        WinsAreStretch(e, v, n);
      }
    } else if forall v :: v in m ==> Wins(e, v, n) == m[v] {
      StakesAreWins(e, m, m.Keys, n);
    }
  }

  // ---------------------------------------------------------------- the election in the source's own terms

  /** Appending a byte to a little-endian number makes it the most significant one. */
  lemma {:induction false} LastByteHighest(b: seq<Byte>, x: Byte)
    ensures FromLe(b + [x]) == FromLe(b) + x * Pow256(|b|)
  {
    if b == [] {
      assert [x][1..] == [];
    } else {
      assert (b + [x])[1..] == b[1..] + [x];
      LastByteHighest(b[1..], x);
      assert 256 * (x * Pow256(|b| - 1)) == x * Pow256(|b|);
    }
  }

  lemma {:induction false} LeRoundTrip(n: nat, width: nat)
    requires n < Pow256(width)
    ensures |ToLe(n, width)| == width && FromLe(ToLe(n, width)) == n
  {
    if width > 0 {
      LeRoundTrip(n / 256, width - 1);
      assert ToLe(n, width)[1..] == ToLe(n / 256, width - 1);
    }
  }

  /** What is hashed for an election: the round in eight little-endian bytes, then the seed. */
  ghost predicate Hashed(input: seq<Byte>, round: U64, seed: Digest) {
    |input| == 40 && FromLe(input[..8]) == round && input[8..] == seed
  }

  /** The number drawn for a round is the digest's first eight bytes, reduced below the total stake. */
  lemma Draw(sha: HashFn, total: U64, round: U64, seed: Digest) returns (input: seq<Byte>, q: nat, target: nat)
    requires total > 0
    ensures Hashed(input, round, seed)
    ensures FromLe(sha(input)[..8]) == q * total + target && target < total
    ensures target == Modulo(RandomValue(sha, round, seed), total)
  {
    hide ToLe, FromLe;
    input := ToLe(round, 8) + seed;
    EightBytes();
    LeRoundTrip(round, 8);
    assert input[..8] == ToLe(round, 8) && input[8..] == seed;
    var x := RandomValue(sha, round, seed);
    q, target := x / total, Modulo(x, total);
    Divides(x, total);
  }

  lemma Divides(x: nat, n: nat)
    requires n > 0
    ensures x == x / n * n + Modulo(x, n)
  {
  }

  /** The hashed bytes determine the round and the seed. */
  lemma InputDetermines(round: U64, seed: Digest, round2: U64, seed2: Digest)
    requires ToLe(round, 8) + seed == ToLe(round2, 8) + seed2
    ensures round == round2 && seed == seed2
  {
    EightBytes();
    LeRoundTrip(round, 8);
    LeRoundTrip(round2, 8);
    assert (ToLe(round, 8) + seed)[..8] == ToLe(round, 8) && (ToLe(round2, 8) + seed2)[..8] == ToLe(round2, 8);
    assert (ToLe(round, 8) + seed)[8..] == seed && (ToLe(round2, 8) + seed2)[8..] == seed2;
  }

  /** The validators whose id comes before `v` byte for byte. */
  ghost function Earlier(m: Stakes, v: ValidatorId): set<ValidatorId> {
    set w | w in m && Before(w, v)
  }

  /** `target` falls on the stretch of the stake line that belongs to `v`. */
  ghost predicate Covers(m: Stakes, v: ValidatorId, target: nat)
    requires v in m
  {
    StakeSum(m, Earlier(m, v)) <= target < StakeSum(m, Earlier(m, v)) + m[v]
  }

  lemma {:induction false} SelectsAt(e: seq<Weighted>, i: nat, target: nat)
    requires i < |e| && forall i, j :: 0 <= i < j < |e| ==> e[i].0 != e[j].0
    ensures Select(e, target) == Some(e[i].0) <==> Weight(e[..i]) <= target < Weight(e[..i]) + e[i].1
  {
    if i == 0 {
      assert e[..0] == [];
      if target >= e[0].1 {
        SelectInRange(e[1..], target - e[0].1);
      }
    } else {
      assert e[..i][0] == e[0] && e[..i][1..] == e[1..][..i - 1];
      if target >= e[0].1 {
        SelectsAt(e[1..], i - 1, target - e[0].1);
      }
    }
  }

  lemma {:induction false} PrefixWeighs(e: seq<Weighted>, m: Stakes, i: nat)
    requires Enumerates(e, m) && i <= |e|
    ensures Weight(e[..i]) == StakeSum(m, set j | 0 <= j < i :: e[j].0)
  {
    var s := set j | 0 <= j < i :: e[j].0;
    if i == 0 {
      assert e[..0] == [] && s == {};
    } else {
      PrefixWeighs(e, m, i - 1);
      WeightSnoc(e[..i - 1], e[i - 1]);
      assert e[..i] == e[..i - 1] + [e[i - 1]];
      assert e[i - 1].0 in s && s - {e[i - 1].0} == set j | 0 <= j < i - 1 :: e[j].0;
      SumRemove(m, s, e[i - 1].0);
    }
  }

  lemma {:induction false} WeightSnoc(e: seq<Weighted>, x: Weighted)
    ensures Weight(e + [x]) == Weight(e) + x.1
  {
    if e == [] {
      assert [x][1..] == [];
    } else {
      assert (e + [x])[1..] == e[1..] + [x];
      WeightSnoc(e[1..], x);
    }
  }

  /** In the sorted listing exactly the byte-wise smaller ids stand before a validator. */
  lemma ListedEarlier(m: Stakes, i: nat)
    requires i < |Canonical(m)|
    ensures (set j | 0 <= j < i :: Canonical(m)[j].0) == Earlier(m, Canonical(m)[i].0)
  {
    hide Canonical, Before, LexLeq, Sorted;
    var e := Canonical(m);
    CanonicalLists(m);
    forall j | 0 <= j < |e| ensures Before(e[j].0, e[i].0) <==> j < i {
      PlacesInOrder(e, m, i, j);
    }
    forall w | w in Earlier(m, e[i].0) ensures exists j :: 0 <= j < i && e[j].0 == w {
      assert (w, m[w]) in e;
    }
  }

  lemma PlacesInOrder(e: seq<Weighted>, m: Stakes, i: nat, j: nat)
    requires Sorted(IdLeq, e) && Enumerates(e, m) && i < |e| && j < |e|
    ensures Before(e[j].0, e[i].0) <==> j < i
  {
    hide Before, LexLeq;
    BeforeTotal(e[j].0, e[i].0);
    BeforeTotal(e[i].0, e[j].0);
    assert j < i ==> IdLeq(e[j], e[i]);
    assert i < j ==> IdLeq(e[i], e[j]);
  }

  lemma PlaceOf(e: seq<Weighted>, m: Stakes, v: ValidatorId) returns (i: nat)
    requires Enumerates(e, m) && v in m
    ensures i < |e| && e[i] == (v, m[v])
    ensures forall i, j :: 0 <= i < j < |e| ==> e[i].0 != e[j].0
  {
    assert (v, m[v]) in e;
    i :| 0 <= i < |e| && e[i] == (v, m[v]);
  }

  /** Who is elected: the validator on whose stretch of the stake line the drawn number falls, the stretches laid out
      in the order of the ids. */
  lemma ElectedExactly(sha: HashFn, m: Stakes, total: U64, round: U64, seed: Digest, v: ValidatorId)
    requires Total(m) == total && v in m && total > 0
    ensures Elected(sha, m, total, round, seed) == Some(v) <==>
            Covers(m, v, Modulo(RandomValue(sha, round, seed), total))
  {
    hide Total, StakeSum, Canonical, Enumerates, Earlier, Sorted, Modulo, RandomValue, ScanFrom, Select, Weight;
    var e, target := Canonical(m), Modulo(RandomValue(sha, round, seed), total);
    CanonicalLists(m);
    WeightIsTotal(e, m);
    var i := PlaceOf(e, m, v);
    ScanIsSelect(e, 0, target);
    SelectsAt(e, i, target);
    PrefixWeighs(e, m, i);
    ListedEarlier(m, i);
  }
}
