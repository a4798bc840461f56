/** The transaction pool: transactions by commitment, and an index ordered by price. */
module Mempool {
  import opened Common
  import opened Words
  import opened Sorting

  datatype Pending = Pending(id: Digest, price: U256, ciphertext: seq<Byte>)

  /** A key of the price index. */
  datatype Key = Key(price: U256, id: Digest)

  type Contents = map<Digest, Pending>

  function KeyOf(p: Pending): Key {
    Key(p.price, p.id)
  }

  // ---------------------------------------------------------------- the order

  /** The derived order of `U256`: limb 0 is compared first. */
  predicate PriceLeq(a: U256, b: U256) {
    LexLeq(a, b)
  }

  predicate KeyLeq(a: Key, b: Key) {
    if a.price == b.price then LexLeq(a.id, b.id) else PriceLeq(a.price, b.price)
  }

  lemma KeyLeqOrders()
    ensures TotalPreorder(KeyLeq)
    ensures forall a, b :: KeyLeq(a, b) && KeyLeq(b, a) ==> a == b
  {
    hide LexLeq;
    forall a: Key, b: Key ensures (KeyLeq(a, b) || KeyLeq(b, a)) && (KeyLeq(a, b) && KeyLeq(b, a) ==> a == b) {
      LexTotal(a.price, b.price);
      LexTotal(a.id, b.id);
    }
    forall a: Key, b: Key, c: Key | KeyLeq(a, b) && KeyLeq(b, c) ensures KeyLeq(a, c) {
      KeyTransitive(a, b, c);
    }
  }

  lemma KeyTransitive(a: Key, b: Key, c: Key)
    requires KeyLeq(a, b) && KeyLeq(b, c)
    ensures KeyLeq(a, c)
  {
    hide LexLeq;
    LexTotal(a.price, b.price);
    if a.price == b.price == c.price {
      LexTransitive(a.id, b.id, c.id);
    } else if a.price != b.price && b.price != c.price {
      LexTransitive(a.price, b.price, c.price);
    }
  }

  function Agree(a: U256, b: U256): bool {
    PriceLeq(a, b) <==> Val(a) <= Val(b)
  }

  function Word(low: U64, high: seq<U64>): U256
    requires |high| == 3
  {
    [low] + high
  }

  lemma LowFirst(x: U64, g: seq<U64>, y: U64, h: seq<U64>)
    requires |g| == 3 && |h| == 3
    ensures x != y ==> (PriceLeq(Word(x, g), Word(y, h)) <==> x < y)
    ensures g == h ==> (PriceLeq(Word(x, g), Word(y, h)) <==> x <= y)
  {
    assert Word(x, g)[1..] == g && Word(y, h)[1..] == h;
    LexTotal(g, h);
  }

  lemma ValSplits(x: U64, h: seq<U64>)
    requires |h| == 3
    ensures Val(Word(x, h)) == x + U64_LIMIT * Upper(Word(0, h))
  {
    UpperSplits(Word(x, h));
    assert Word(x, h)[1] == Word(0, h)[1] && Word(x, h)[2] == Word(0, h)[2] && Word(x, h)[3] == Word(0, h)[3];
  }

  lemma UpperInjective(g: seq<U64>, h: seq<U64>)
    requires |g| == 3 && |h| == 3 && Upper(Word(0, g)) == Upper(Word(0, h))
    ensures g == h
  {
    hide Val, Upper;
    UpperSplits(Word(0, g));
    UpperSplits(Word(0, h));
    ValInjective(Word(0, g), Word(0, h));
    assert Word(0, g)[1..] == g && Word(0, h)[1..] == h;
  }

  /** The index order is the numeric order, whatever the lowest limbs, exactly for prices with equal upper limbs. */
  lemma OrderIsNumeric(g: seq<U64>, h: seq<U64>)
    requires |g| == 3 && |h| == 3
    ensures (forall x: U64, y: U64 {:trigger Agree(Word(x, g), Word(y, h))} :: Agree(Word(x, g), Word(y, h))) <==>
            g == h
  {
    hide Val, LexLeq, Word, Upper;
    forall x: U64, y: U64 | g == h ensures Agree(Word(x, g), Word(y, h)) {
      LowFirst(x, g, y, h);
      ValSplits(x, g);
      ValSplits(y, h);
    }
    if g != h {
      if Upper(Word(0, g)) == Upper(Word(0, h)) {
        UpperInjective(g, h);
      }
      Disagree(g, h);
      var x := if Upper(Word(0, g)) < Upper(Word(0, h)) then 1 else 0;
      var y := 1 - x;
      assert !Agree(Word(x, g), Word(y, h));
    }
  }

  lemma Disagree(g: seq<U64>, h: seq<U64>)
    requires |g| == 3 && |h| == 3
    ensures Upper(Word(0, g)) < Upper(Word(0, h)) ==> !Agree(Word(1, g), Word(0, h))
    ensures Upper(Word(0, g)) > Upper(Word(0, h)) ==> !Agree(Word(0, g), Word(1, h))
  {
    hide Val, LexLeq, Word, Upper;
    LowFirst(1, g, 0, h);
    LowFirst(0, g, 1, h);
    ValSplits(1, g);
    ValSplits(0, h);
    ValSplits(0, g);
    ValSplits(1, h);
  }

  /** A price of 2^64 ranks below a price of 1. */
  lemma HugePriceRanksLow()
    ensures PriceLeq([0, 1, 0, 0], FromU64(1)) && Val([0, 1, 0, 0]) > Val(FromU64(1))
  {
  }

  // ---------------------------------------------------------------- the pool as a value

  datatype Pool = Pool(txs: Contents, index: seq<Key>, known: set<Digest>, max: nat)

  datatype AddResult = Accepted | AlreadyKnown | PoolFull

  function Drop(index: seq<Key>, k: Key): seq<Key> {
    if index == [] then [] else if index[0] == k then index[1..] else [index[0]] + Drop(index[1..], k)
  }

  function RemoveFrom(p: Pool, id: Digest): Pool {
    if id !in p.txs then p else
      p.(txs := p.txs - {id}, index := Drop(p.index, Key(p.txs[id].price, id)))
  }

  function Stored(p: Pool, tx: Pending): Pool {
    p.(txs := p.txs[tx.id := tx], index := Insert(KeyLeq, KeyOf(tx), p.index), known := p.known + {tx.id})
  }

  /** The price is above the lowest pooled one. */
  predicate Beats(p: Pool, price: U256) {
    p.index != [] && !PriceLeq(price, p.index[0].price)
  }

  function AddTo(p: Pool, tx: Pending): (Pool, AddResult) {
    if tx.id in p.known then (p, AlreadyKnown)
    else if |p.txs| < p.max then (Stored(p, tx), Accepted)
    else if Beats(p, tx.price) then (Stored(RemoveFrom(p, p.index[0].id), tx), Accepted)
    else (p, PoolFull)
  }

  // ---------------------------------------------------------------- both indices describe one set

  predicate KeyLess(a: Key, b: Key) {
    KeyLeq(a, b) && a != b
  }

  ghost predicate Ascending(index: seq<Key>) {
    forall i, j :: 0 <= i < j < |index| ==> KeyLess(index[i], index[j])
  }

  ghost predicate Indexed(txs: Contents, index: seq<Key>) {
    && Ascending(index)
    && (forall k {:trigger PooledKey(txs, k)} :: k in index ==> PooledKey(txs, k))
    && (forall c {:trigger Listed(txs, index, c)} :: c in txs ==> Listed(txs, index, c))
  }

  predicate PooledKey(txs: Contents, k: Key) {
    k.id in txs && txs[k.id].price == k.price
  }

  ghost predicate Listed(txs: Contents, index: seq<Key>, c: Digest)
    requires c in txs
  {
    txs[c].id == c && KeyOf(txs[c]) in index
  }

  ghost predicate Consistent(p: Pool) {
    Indexed(p.txs, p.index) && p.txs.Keys <= p.known && |p.txs| <= p.max
  }

  lemma KeyLessOrders(a: Key, b: Key, c: Key)
    ensures a == b || KeyLess(a, b) || KeyLess(b, a)
    ensures !(KeyLess(a, b) && KeyLess(b, a))
    ensures KeyLess(a, b) && KeyLess(b, c) ==> KeyLess(a, c)
  {
    KeyLeqOrders();
    hide KeyLeq;
  }

  /** `x` ranks below `y`: by the first differing limb of the price, lowest limb first, and at equal prices by the first
      differing byte of the commitment. */
  ghost predicate Below(x: Pending, y: Pending) {
    Before(x.price, y.price) || (x.price == y.price && Before(x.id, y.id))
  }

  lemma LessIsBelow(x: Pending, y: Pending)
    ensures KeyLess(KeyOf(x), KeyOf(y)) <==> Below(x, y)
  {
    hide LexLeq, Before;
    BeforeTotal(x.price, y.price);
    BeforeTotal(x.id, y.id);
  }

  lemma PushFront(k: Key, rest: seq<Key>)
    requires Ascending(rest) && forall x :: x in rest ==> KeyLess(k, x)
    ensures Ascending([k] + rest)
  {
    hide KeyLess;
  }

  lemma HeadLeast(index: seq<Key>)
    requires Ascending(index) && index != []
    ensures Ascending(index[1..]) && (forall x :: x in index[1..] ==> KeyLess(index[0], x))
    ensures forall x :: x in index <==> x == index[0] || x in index[1..]
  {
    hide KeyLess;
    assert index == [index[0]] + index[1..];
  }

  lemma {:induction false} DropAscends(index: seq<Key>, k: Key)
    requires Ascending(index)
    ensures Ascending(Drop(index, k)) && forall x :: x in Drop(index, k) <==> x in index && x != k
  {
    if index != [] {
      HeadLeast(index);
      hide Ascending, KeyLeq;
      if index[0] != k {
        DropAscends(index[1..], k);
        PushFront(index[0], Drop(index[1..], k));
      }
    }
  }

  lemma {:induction false} InsertAscends(k: Key, index: seq<Key>)
    requires Ascending(index) && k !in index
    ensures Ascending(Insert(KeyLeq, k, index)) && forall x :: x in Insert(KeyLeq, k, index) <==> x == k || x in index
  {
    if index != [] {
      HeadLeast(index);
      KeyLessOrders(index[0], k, k);
      if KeyLeq(k, index[0]) {
        forall x | x in index ensures KeyLess(k, x) {
          KeyLessOrders(k, index[0], x);
        }
        hide KeyLeq, Ascending;
        PushFront(k, index);
      } else {
        hide KeyLeq, Ascending;
        InsertAscends(k, index[1..]);
        PushFront(index[0], Insert(KeyLeq, k, index[1..]));
      }
    } else {
      assert [k] == [k] + [];
    }
  }

  lemma DropIndexed(txs: Contents, index: seq<Key>, id: Digest)
    requires Indexed(txs, index) && id in txs
    ensures Indexed(txs - {id}, Drop(index, Key(txs[id].price, id)))
  {
    hide KeyLeq, Drop, Ascending;
    var k, rest := Key(txs[id].price, id), txs - {id};
    DropAscends(index, k);
    forall x | x in Drop(index, k) ensures PooledKey(rest, x) {
      assert PooledKey(txs, x);
    }
    forall c | c in rest ensures Listed(rest, Drop(index, k), c) {
      assert Listed(txs, index, c);
    }
  }

  lemma StoreIndexed(txs: Contents, index: seq<Key>, tx: Pending)
    requires Indexed(txs, index) && tx.id !in txs
    ensures Indexed(txs[tx.id := tx], Insert(KeyLeq, KeyOf(tx), index))
  {
    hide KeyLeq, Insert, Ascending;
    assert KeyOf(tx) !in index by {
      assert !PooledKey(txs, KeyOf(tx));
    }
    InsertAscends(KeyOf(tx), index);
    var more := txs[tx.id := tx];
    forall x | x in Insert(KeyLeq, KeyOf(tx), index) ensures PooledKey(more, x) {
      assert x != KeyOf(tx) ==> PooledKey(txs, x);
    }
    forall c | c in more ensures Listed(more, Insert(KeyLeq, KeyOf(tx), index), c) {
      assert c != tx.id ==> Listed(txs, index, c);
    }
  }

  lemma RemoveKeeps(p: Pool, id: Digest)
    requires Consistent(p)
    ensures var r := RemoveFrom(p, id);
            Consistent(r) && r.txs == p.txs - {id} && r.known == p.known && r.max == p.max
  {
    hide Indexed, Drop;
    if id in p.txs {
      DropIndexed(p.txs, p.index, id);
      assert (p.txs - {id}).Keys == p.txs.Keys - {id};
    }
  }

  /** The first index key is that of a pooled transaction, and none is below it. */
  lemma LowestPooled(p: Pool, c: Digest)
    requires Indexed(p.txs, p.index) && c in p.txs
    ensures p.index != [] && p.index[0].id in p.txs && p.txs[p.index[0].id].price == p.index[0].price
    ensures KeyLeq(p.index[0], KeyOf(p.txs[c])) && PriceLeq(p.index[0].price, p.txs[c].price)
  {
    hide KeyLeq, PriceLeq;
    var k := KeyOf(p.txs[c]);
    assert Listed(p.txs, p.index, c);
    assert PooledKey(p.txs, p.index[0]);
    var i :| 0 <= i < |p.index| && p.index[i] == k;
    KeyReflexive(k);
    assert i > 0 ==> KeyLess(p.index[0], p.index[i]);
    KeyBoundsPrice(p.index[0], k);
  }

  lemma KeyReflexive(k: Key)
    ensures KeyLeq(k, k)
  {
    LexTotal(k.id, k.id);
  }

  lemma KeyBoundsPrice(a: Key, b: Key)
    requires KeyLeq(a, b)
    ensures PriceLeq(a.price, b.price)
  {
    LexTotal(a.price, b.price);
  }

  lemma AddKeeps(p: Pool, tx: Pending)
    requires Consistent(p)
    ensures Consistent(AddTo(p, tx).0)
  {
    hide Indexed, KeyLeq, Drop, Insert, PriceLeq;
    if tx.id !in p.known {
      if |p.txs| < p.max {
        StoreIndexed(p.txs, p.index, tx);
      } else if Beats(p, tx.price) {
        var lowest := p.index[0].id;
        IndexHeadPooled(p);
        var q := RemoveFrom(p, lowest);
        RemoveKeeps(p, lowest);
        assert q.txs.Keys == p.txs.Keys - {lowest};
        StoreIndexed(q.txs, q.index, tx);
      }
      var r := AddTo(p, tx).0;
      assert r.txs.Keys <= r.known;
    }
  }

  lemma IndexHeadPooled(p: Pool)
    requires Indexed(p.txs, p.index) && p.index != []
    ensures p.index[0].id in p.txs && KeyOf(p.txs[p.index[0].id]) == p.index[0]
  {
    var k := p.index[0];
    assert PooledKey(p.txs, k) && Listed(p.txs, p.index, k.id);
  }

  lemma {:induction false} IndexSize(txs: Contents, index: seq<Key>)
    requires Indexed(txs, index)
    ensures |txs| == |index|
    decreases |index|
  {
    forall c | c in txs ensures KeyOf(txs[c]) in index {
      assert Listed(txs, index, c);
    }
    if index == [] {
      assert txs.Keys == {};
    } else {
      var k := index[0];
      assert PooledKey(txs, k);
      DropIndexed(txs, index, k.id);
      assert (txs - {k.id}).Keys == txs.Keys - {k.id};
      hide Indexed, KeyLeq;
      IndexSize(txs - {k.id}, index[1..]);
    }
  }

  // ---------------------------------------------------------------- what adding means

  /** Some pooled price is below the given one. */
  ghost predicate Outbids(txs: Contents, price: U256) {
    exists c :: c in txs && !PriceLeq(price, txs[c].price)
  }

  ghost predicate Least(txs: Contents, c: Digest) {
    c in txs && forall d :: d in txs ==> KeyLeq(KeyOf(txs[c]), KeyOf(txs[d]))
  }

  lemma BeatsMeans(p: Pool, price: U256)
    requires Consistent(p)
    ensures Beats(p, price) <==> Outbids(p.txs, price)
    ensures p.index != [] ==> Least(p.txs, p.index[0].id)
  {
    hide KeyLeq, LexLeq;
    if p.index != [] {
      IndexHeadPooled(p);
      var c := p.index[0].id;
      hide Indexed;
      forall d | d in p.txs ensures
        && KeyLeq(KeyOf(p.txs[c]), KeyOf(p.txs[d]))
        && (!PriceLeq(price, p.txs[d].price) ==> !PriceLeq(price, p.index[0].price))
      {
        LowestPooled(p, d);
        if PriceLeq(price, p.index[0].price) {
          LexTransitive(price, p.index[0].price, p.txs[d].price);
        }
      }
    } else {
      IndexSize(p.txs, p.index);
    }
  }

  /** A new transaction is refused only when known, or when the pool is full and it outbids nobody;
      otherwise it enters, and the least pooled one leaves just when there was no room. */
  lemma AddMeans(p: Pool, tx: Pending)
    requires Consistent(p)
    ensures var r := AddTo(p, tx);
            && (r.1 == AlreadyKnown <==> tx.id in p.known)
            && (r.1 == Accepted <==> tx.id !in p.known && (|p.txs| < p.max || Outbids(p.txs, tx.price)))
            && (r.1 != Accepted ==> r.0 == p)
            && (r.1 == Accepted ==>
                  && r.0.known == p.known + {tx.id}
                  && (|p.txs| < p.max ==> r.0.txs == p.txs[tx.id := tx])
                  && (|p.txs| >= p.max ==>
                        exists c: Digest :: Least(p.txs, c) && r.0.txs == (p.txs - {c})[tx.id := tx]))
  {
    BeatsMeans(p, tx.price);
    hide Indexed, KeyLeq, Drop, Insert, Least, Outbids;
    if p.index != [] {
      IndexHeadPooled(p);
      var c := p.index[0].id;
      assert Least(p.txs, c);
    }
  }

  // ---------------------------------------------------------------- the best transactions

  /** The `n` greatest pooled transactions, greatest first. */
  ghost predicate IsTop(r: seq<Pending>, txs: Contents, n: nat) {
    && |r| == Min(n, |txs|)
    && (forall i :: 0 <= i < |r| ==> Holds(txs, r[i]))
    && (forall i, j :: 0 <= i < j < |r| ==> KeyLess(KeyOf(r[j]), KeyOf(r[i])))
    && (forall x, i :: Holds(txs, x) && x !in r && 0 <= i < |r| ==> KeyLess(KeyOf(x), KeyOf(r[i])))
  }

  predicate Holds(txs: Contents, x: Pending) {
    x.id in txs && txs[x.id] == x
  }

  /** In a top list every transaction ranks above the later ones and above those left out, so that at equal prices the
      greater commitment comes first. */
  lemma TopRanks(r: seq<Pending>, txs: Contents, n: nat)
    requires IsTop(r, txs, n)
    ensures forall i, j :: 0 <= i < j < |r| ==> Below(r[j], r[i])
    ensures forall x, i :: Holds(txs, x) && x !in r && 0 <= i < |r| ==> Below(x, r[i])
  {
    hide KeyLess, Below;
    forall x, y ensures KeyLess(KeyOf(x), KeyOf(y)) <==> Below(x, y) {
      LessIsBelow(x, y);
    }
  }

  /** The one that is evicted ranks below every other: the lowest price, and at equal prices the least commitment. */
  lemma LeastRanks(p: Pool, c: Digest, d: Digest)
    requires Consistent(p) && Least(p.txs, c) && d in p.txs && d != c
    ensures Below(p.txs[c], p.txs[d])
  {
    hide KeyLeq, Below;
    assert Listed(p.txs, p.index, c) && Listed(p.txs, p.index, d);
    LessIsBelow(p.txs[c], p.txs[d]);
  }

  /** There is only one top list. */
  lemma {:induction false} TopUnique(txs: Contents, n: nat, a: seq<Pending>, b: seq<Pending>, i: nat)
    requires IsTop(a, txs, n) && IsTop(b, txs, n) && i <= |a|
    ensures a[..i] == b[..i]
  {
    if i > 0 {
      TopUnique(txs, n, a, b, i - 1);
      var x, y := a[i - 1], b[i - 1];
      NotBelow(txs, n, a, b, i - 1);
      NotBelow(txs, n, b, a, i - 1);
      KeyLessOrders(KeyOf(x), KeyOf(y), KeyOf(x));
      assert KeyOf(x) == KeyOf(y);
      assert a[..i] == a[..i - 1] + [x] && b[..i] == b[..i - 1] + [y];
    }
  }

  lemma NotBelow(txs: Contents, n: nat, a: seq<Pending>, b: seq<Pending>, i: nat)
    requires IsTop(a, txs, n) && IsTop(b, txs, n) && i < |a| && a[..i] == b[..i]
    ensures !KeyLess(KeyOf(a[i]), KeyOf(b[i]))
  {
    hide KeyLeq;
    KeyLessOrders(KeyOf(a[i]), KeyOf(b[i]), KeyOf(a[i]));
    forall j | 0 <= j < i ensures a[j] != b[i] {
      assert a[..i][j] == b[..i][j];
      assert KeyLess(KeyOf(b[i]), KeyOf(b[j]));
    }
    if b[i] in a {
      var j :| 0 <= j < |a| && a[j] == b[i];
    }
  }

  /** The transactions of the index from the greatest key down. */
  ghost function Descending(p: Pool, n: nat): (r: seq<Pending>)
    requires n <= |p.index| && Indexed(p.txs, p.index)
    ensures |r| == n && forall i :: 0 <= i < n ==> r[i] == FromTop(p, i)
  {
    seq(n, i requires 0 <= i < n => FromTop(p, i))
  }

  ghost function FromTop(p: Pool, i: nat): Pending
    requires Indexed(p.txs, p.index) && i < |p.index|
  {
    var k := p.index[|p.index| - 1 - i];
    assert PooledKey(p.txs, k);
    p.txs[k.id]
  }

  lemma FromTopHolds(p: Pool, i: nat)
    requires Indexed(p.txs, p.index) && i < |p.index|
    ensures KeyOf(FromTop(p, i)) == p.index[|p.index| - 1 - i] && Holds(p.txs, FromTop(p, i))
  {
    var k := p.index[|p.index| - 1 - i];
    assert PooledKey(p.txs, k) && Listed(p.txs, p.index, k.id);
  }

  /** A pooled transaction among the first `m` from the top is listed there; any other is below all of them. */
  lemma RankDecides(p: Pool, m: nat, x: Pending, i: nat)
    requires Indexed(p.txs, p.index) && i < m <= |p.index| && Holds(p.txs, x) && x !in Descending(p, m)
    ensures KeyLess(KeyOf(x), p.index[|p.index| - 1 - i])
  {
    hide KeyLess, FromTop;
    var size, r := |p.index|, Descending(p, m);
    assert Listed(p.txs, p.index, x.id);
    forall at | size - m <= at < size ensures p.index[at] != KeyOf(x) {
      FromTopHolds(p, size - 1 - at);
      assert r[size - 1 - at] == FromTop(p, size - 1 - at);
    }
    var at :| 0 <= at < size && p.index[at] == KeyOf(x);
  }

  lemma DescendingIsTop(p: Pool, n: nat)
    requires Indexed(p.txs, p.index)
    ensures IsTop(Descending(p, Min(n, |p.index|)), p.txs, n)
  {
    hide KeyLess, FromTop;
    IndexSize(p.txs, p.index);
    var size, m := |p.index|, Min(n, |p.index|);
    var r := Descending(p, m);
    forall i | 0 <= i < m ensures KeyOf(r[i]) == p.index[size - 1 - i] && Holds(p.txs, r[i]) {
      FromTopHolds(p, i);
    }
    forall x, i | Holds(p.txs, x) && x !in r && 0 <= i < m ensures KeyLess(KeyOf(x), KeyOf(r[i])) {
      RankDecides(p, m, x, i);
    }
  }

  /** All pooled prices have the same limbs above the lowest. */
  ghost predicate SharedUpper(txs: Contents) {
    forall c, d :: c in txs && d in txs ==> txs[c].price[1..] == txs[d].price[1..]
  }

  /** The `n` numerically highest prices, highest first. */
  ghost predicate IsNumericTop(r: seq<Pending>, txs: Contents, n: nat) {
    && |r| == Min(n, |txs|)
    && (forall i :: 0 <= i < |r| ==> Holds(txs, r[i]))
    && (forall i, j :: 0 <= i < j < |r| ==> Val(r[j].price) <= Val(r[i].price))
    && (forall x, i :: Holds(txs, x) && x !in r && 0 <= i < |r| ==> Val(x.price) <= Val(r[i].price))
  }

  /** On the pooled prices the index order is the numeric order. */
  ghost predicate OrdersAgree(txs: Contents) {
    forall c, d :: c in txs && d in txs ==> Agree(txs[c].price, txs[d].price)
  }

  lemma SharedAgree(txs: Contents)
    requires SharedUpper(txs)
    ensures OrdersAgree(txs)
  {
    hide Val, Upper, LexLeq;
    forall c, d | c in txs && d in txs ensures Agree(txs[c].price, txs[d].price) {
      var x, y := txs[c].price, txs[d].price;
      var g := x[1..];
      assert x == Word(x[0], g) && y == Word(y[0], g);
      OrderIsNumeric(g, g);
      assert Agree(Word(x[0], g), Word(y[0], g));
    }
  }

  lemma AgreedTop(r: seq<Pending>, txs: Contents, n: nat)
    requires IsTop(r, txs, n) && OrdersAgree(txs)
    ensures IsNumericTop(r, txs, n)
  {
    hide KeyLeq, Val, LexLeq;
    forall x, y | Holds(txs, x) && Holds(txs, y) && KeyLess(KeyOf(x), KeyOf(y)) ensures Val(x.price) <= Val(y.price) {
      KeyBoundsPrice(KeyOf(x), KeyOf(y));
      assert Agree(txs[x.id].price, txs[y.id].price);
    }
  }

  lemma DescendingListsAll(p: Pool, c: Digest) returns (i: nat)
    requires Indexed(p.txs, p.index) && c in p.txs
    ensures i < |p.index| && Descending(p, |p.index|)[i] == p.txs[c]
  {
    hide Ascending, FromTop;
    assert Listed(p.txs, p.index, c);
    var at :| 0 <= at < |p.index| && p.index[at] == KeyOf(p.txs[c]);
    i := |p.index| - 1 - at;
    FromTopHolds(p, i);
  }

  /** Two neighbours in the full numeric listing are in both orders. */
  lemma NumericAgrees(r: seq<Pending>, txs: Contents, i: nat, j: nat)
    requires IsTop(r, txs, |txs|) && IsNumericTop(r, txs, |txs|) && i <= j < |r|
    ensures Agree(r[i].price, r[j].price) && Agree(r[j].price, r[i].price)
  {
    hide KeyLeq, Val, LexLeq;
    var a, b := r[i].price, r[j].price;
    LexTotal(a, b);
    if i < j {
      assert KeyLess(KeyOf(r[j]), KeyOf(r[i]));
      KeyBoundsPrice(KeyOf(r[j]), KeyOf(r[i]));
      if Val(a) == Val(b) {
        ValInjective(a, b);
      }
    }
  }

  /** The top lists are the numeric ones for every limit exactly when the two orders agree on the pooled prices. */
  lemma TopIsNumeric(p: Pool)
    requires Consistent(p)
    ensures (forall n, r :: IsTop(r, p.txs, n) ==> IsNumericTop(r, p.txs, n)) <==> OrdersAgree(p.txs)
  {
    hide IsTop, IsNumericTop, Ascending, KeyLeq, Val, Agree;
    if OrdersAgree(p.txs) {
      forall n, r | IsTop(r, p.txs, n) ensures IsNumericTop(r, p.txs, n) {
        AgreedTop(r, p.txs, n);
      }
    }
    if forall n, r :: IsTop(r, p.txs, n) ==> IsNumericTop(r, p.txs, n) {
      IndexSize(p.txs, p.index);
      DescendingIsTop(p, |p.txs|);
      var r := Descending(p, |p.index|);
      assert IsNumericTop(r, p.txs, |p.txs|);
      forall c, d | c in p.txs && d in p.txs ensures Agree(p.txs[c].price, p.txs[d].price) {
        var i := DescendingListsAll(p, c);
        var j := DescendingListsAll(p, d);
        if i <= j {
          NumericAgrees(r, p.txs, i, j);
        } else {
          NumericAgrees(r, p.txs, j, i);
        }
      }
    }
  }

  // ---------------------------------------------------------------- whole runs

  datatype Op = Add(tx: Pending) | Remove(id: Digest)

  function Step(p: Pool, op: Op): Pool {
    match op
    case Add(tx) => AddTo(p, tx).0
    case Remove(id) => RemoveFrom(p, id)
  }

  function Run(max: nat, ops: seq<Op>): Pool {
    if ops == [] then Pool(map[], [], {}, max) else Step(Run(max, ops[..|ops| - 1]), ops[|ops| - 1])
  }

  lemma StartConsistent(max: nat)
    ensures Consistent(Run(max, []))
  {
  }

  /** After any run both indices describe the same transactions, all known, within the limit. */
  lemma {:induction false} RunConsistent(max: nat, ops: seq<Op>)
    ensures Consistent(Run(max, ops)) && Run(max, ops).max == max
  {
    hide Consistent, AddTo;
    if ops == [] {
      StartConsistent(max);
    } else {
      var rest, op := ops[..|ops| - 1], ops[|ops| - 1];
      RunConsistent(max, rest);
      match op {
        case Add(tx) =>
          AddKeeps(Run(max, rest), tx);
          AddSameMax(Run(max, rest), tx);
        case Remove(id) => RemoveKeeps(Run(max, rest), id);
      }
    }
  }

  lemma AddSameMax(p: Pool, tx: Pending)
    ensures AddTo(p, tx).0.max == p.max && p.known <= AddTo(p, tx).0.known
  {
  }

  lemma {:induction false} KnownGrows(max: nat, ops: seq<Op>, i: nat)
    requires i <= |ops|
    ensures Run(max, ops[..i]).known <= Run(max, ops).known
  {
    hide AddTo;
    if i == |ops| {
      assert ops[..i] == ops;
    } else {
      var rest, op := ops[..|ops| - 1], ops[|ops| - 1];
      KnownGrows(max, rest, i);
      assert rest[..i] == ops[..i];
      if op.Add? {
        AddSameMax(Run(max, rest), op.tx);
      }
    }
  }

  /** The `i`-th operation of the run is an addition that is accepted. */
  ghost predicate AcceptedAt(max: nat, ops: seq<Op>, i: nat)
    requires i < |ops|
  {
    ops[i].Add? && AddTo(Run(max, ops[..i]), ops[i].tx).1 == Accepted
  }

  /** A commitment is accepted at most once, even if removed or evicted in between. */
  lemma AcceptedOnce(max: nat, ops: seq<Op>, i: nat, j: nat)
    requires i < j < |ops| && AcceptedAt(max, ops, i) && AcceptedAt(max, ops, j)
    ensures ops[i].tx.id != ops[j].tx.id
  {
    var upTo := ops[..i + 1];
    assert upTo[..i] == ops[..i] && ops[..j][..i + 1] == upTo;
    assert Run(max, upTo) == Step(Run(max, ops[..i]), ops[i]);
    KnownGrows(max, ops[..j], i + 1);
  }

  // ---------------------------------------------------------------- runs that only add

  ghost predicate AddOnly(ops: seq<Op>) {
    forall i :: 0 <= i < |ops| ==> ops[i].Add?
  }

  /** The price an addition turns away: that of the evicted transaction, or its own when the pool is full. */
  function DroppedBy(p: Pool, tx: Pending): seq<U256> {
    if tx.id in p.known || |p.txs| < p.max then []
    else if Beats(p, tx.price) then [p.index[0].price] else [tx.price]
  }

  ghost function Dropped(max: nat, ops: seq<Op>): seq<U256> {
    if ops == [] then [] else
      var rest, op := ops[..|ops| - 1], ops[|ops| - 1];
      Dropped(max, rest) + (if op.Add? then DroppedBy(Run(max, rest), op.tx) else [])
  }

  ghost predicate AllBelow(qs: seq<U256>, txs: Contents) {
    forall q, c :: q in qs && c in txs ==> PriceLeq(q, txs[c].price)
  }

  /** In a run that only adds, every price turned away is at most every pooled price. */
  lemma {:induction false} TurnedAwayBelow(max: nat, ops: seq<Op>)
    requires AddOnly(ops)
    ensures AllBelow(Dropped(max, ops), Run(max, ops).txs)
    ensures Dropped(max, ops) != [] ==> |Run(max, ops).txs| >= max
  {
    hide Consistent, AddTo, AllBelow, DroppedBy;
    if ops == [] {
      NothingDropped();
    } else {
      var rest := ops[..|ops| - 1];
      TurnedAwayBelow(max, rest);
      RunConsistent(max, rest);
      AddBelow(Run(max, rest), ops[|ops| - 1].tx, Dropped(max, rest));
    }
  }

  lemma NothingDropped()
    ensures AllBelow([], map[])
  {
  }

  lemma AddBelow(p: Pool, tx: Pending, qs: seq<U256>)
    requires Consistent(p) && AllBelow(qs, p.txs) && (qs != [] ==> |p.txs| >= p.max)
    ensures AllBelow(qs + DroppedBy(p, tx), AddTo(p, tx).0.txs)
    ensures qs + DroppedBy(p, tx) != [] ==> |AddTo(p, tx).0.txs| >= p.max
  {
    hide Indexed, KeyLeq, LexLeq, Drop, Insert;
    if tx.id !in p.known {
      if |p.txs| < p.max {
        assert qs == [];
      } else if Beats(p, tx.price) {
        EvictBelow(p, tx, qs);
      } else {
        forall c | c in p.txs ensures PriceLeq(tx.price, p.txs[c].price) {
          LowestPooled(p, c);
          LexTransitive(tx.price, p.index[0].price, p.txs[c].price);
        }
      }
    }
  }

  lemma EvictBelow(p: Pool, tx: Pending, qs: seq<U256>)
    requires Consistent(p) && AllBelow(qs, p.txs) && Beats(p, tx.price) && tx.id !in p.known
    ensures var after := Stored(RemoveFrom(p, p.index[0].id), tx).txs;
            AllBelow(qs + [p.index[0].price], after) && |after| == |p.txs|
  {
    hide Indexed, KeyLeq, LexLeq, Drop, Insert;
    var low := p.index[0];
    IndexHeadPooled(p);
    LowestPooled(p, low.id);
    LexTotal(low.price, tx.price);
    var after := Stored(RemoveFrom(p, low.id), tx).txs;
    assert after == (p.txs - {low.id})[tx.id := tx];
    assert after.Keys == p.txs.Keys - {low.id} + {tx.id};
    forall q, c | q in qs + [low.price] && c in after ensures PriceLeq(q, after[c].price) {
      if q in qs {
        assert PriceLeq(q, p.txs[low.id].price);
        if c == tx.id {
          LexTransitive(q, low.price, tx.price);
        }
      } else if c != tx.id {
        LowestPooled(p, c);
      }
    }
  }

  // ---------------------------------------------------------------- the pool object

  class TransactionPool {
    const maxSize: nat
    var transactions: Contents
    var byPrice: seq<Key>
    var known: set<Digest>

    ghost function State(): Pool
      reads this
    {
      Pool(transactions, byPrice, known, maxSize)
    }

    ghost predicate Valid()
      reads this
    {
      Consistent(State())
    }

    constructor (maxSize: nat)
      ensures Valid() && State() == Run(maxSize, [])
    {
      this.maxSize := maxSize;
      transactions, byPrice, known := map[], [], {};
      new;
      StartConsistent(maxSize);
    }

    method Remove(id: Digest) returns (r: Option<Pending>)
      requires Valid()
      modifies this
      ensures Valid() && State() == RemoveFrom(old(State()), id) && r == Lookup(old(transactions), id)
    {
      hide Consistent, Drop;
      RemoveKeeps(State(), id);
      if id !in transactions {
        return None;
      }
      var pending := transactions[id];
      transactions := transactions - {id};
      byPrice := Drop(byPrice, Key(pending.price, id));
      r := Some(pending);
    }

    method EvictLowest(price: U256) returns (evicted: bool)
      requires Valid()
      modifies this
      ensures Valid() && evicted == Beats(old(State()), price)
      ensures State() == if evicted then RemoveFrom(old(State()), old(byPrice)[0].id) else old(State())
    {
      hide Consistent, Drop, PriceLeq;
      if byPrice != [] && !PriceLeq(price, byPrice[0].price) {
        var _ := Remove(byPrice[0].id);
        return true;
      }
      return false;
    }

    method Add(tx: Pending) returns (r: AddResult)
      requires Valid()
      modifies this
      ensures Valid() && (State(), r) == AddTo(old(State()), tx)
    {
      hide Consistent, Drop, PriceLeq, Insert, KeyLeq;
      AddKeeps(State(), tx);
      if tx.id in known {
        return AlreadyKnown;
      }
      if |transactions| >= maxSize {
        var evicted := EvictLowest(tx.price);
        if !evicted {
          return PoolFull;
        }
      }
      transactions := transactions[tx.id := tx];
      byPrice := Insert(KeyLeq, KeyOf(tx), byPrice);
      known := known + {tx.id};
      r := Accepted;
    }

    method Best(limit: nat) returns (r: seq<Pending>)
      requires Valid()
      ensures IsTop(r, transactions, limit)
      ensures OrdersAgree(transactions) ==> IsNumericTop(r, transactions, limit)
    {
      hide IsTop, OrdersAgree, IsNumericTop, Ascending, PooledKey, Listed;
      ghost var p := State();
      r := [];
      var n := Min(limit, |byPrice|);
      for i := 0 to n
        invariant r == Descending(p, i)
      {
        var id := byPrice[|byPrice| - 1 - i].id;
        DescendingStep(p, i);
        if id in transactions {
          r := r + [transactions[id]];
        }
      }
      DescendingIsTop(p, limit);
      if OrdersAgree(transactions) {
        AgreedTop(r, transactions, limit);
      }
    }

    method MarkIncluded(ids: seq<Digest>) returns (count: nat)
      requires Valid()
      modifies this
      ensures Valid() && known == old(known)
      ensures forall c :: c in transactions <==> c in old(transactions) && c !in ids
      ensures forall c :: c in transactions ==> transactions[c] == old(transactions)[c]
      ensures count == |old(transactions)| - |transactions|
    {
      hide Consistent, Drop;
      count := 0;
      for i := 0 to |ids|
        invariant Valid() && known == old(known)
        invariant forall c :: c in transactions <==> c in old(transactions) && c !in ids[..i]
        invariant forall c :: c in transactions ==> transactions[c] == old(transactions)[c]
        invariant count == |old(transactions)| - |transactions|
      {
        ghost var before := transactions;
        var removed := Remove(ids[i]);
        if removed.Some? {
          assert transactions.Keys == before.Keys - {ids[i]};
          count := count + 1;
        }
      }
    }
  }

  lemma DescendingStep(p: Pool, i: nat)
    requires Indexed(p.txs, p.index) && i < |p.index|
    ensures p.index[|p.index| - 1 - i].id in p.txs
    ensures Descending(p, i + 1) == Descending(p, i) + [p.txs[p.index[|p.index| - 1 - i].id]]
  {
    assert PooledKey(p.txs, p.index[|p.index| - 1 - i]);
    assert Descending(p, i + 1)[i] == FromTop(p, i);
  }
}
