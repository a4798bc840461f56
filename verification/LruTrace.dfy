/** Least-recently-used eviction told by the trace of operations alone, and why the recency list obeys it. */
module LruTrace {
  import opened Common
  import opened LruList

  // ---------------------------------------------------------------- the trace

  ghost predicate IsOldest<K>(m: map<K, nat>, k: K) {
    k in m && forall j :: j in m ==> m[k] <= m[j]
  }

  /** Some key was used longest ago. */
  lemma {:induction false} OldestExists<K(!new)>(m: map<K, nat>)
    requires m != map[]
    ensures exists k :: IsOldest(m, k)
    decreases |m|
  {
    var x :| x in m;
    var rest := m - {x};
    if rest == map[] {
      OnlyKey(m, x);
    } else {
      SmallerWithout(m, x);
      OldestExists(rest);
      var k :| IsOldest(rest, k);
      assert IsOldest(m, if m[x] < m[k] then x else k) by {
        forall j | j in m ensures m[if m[x] < m[k] then x else k] <= m[j] {
          assert j == x || (j in rest && rest[j] == m[j]);
        }
      }
    }
  }

  lemma OnlyKey<K>(m: map<K, nat>, x: K)
    requires x in m && m - {x} == map[]
    ensures IsOldest(m, x)
  {
    forall j | j in m ensures j == x {
      assert j != x ==> j in m - {x};
    }
  }

  lemma SmallerWithout<K>(m: map<K, nat>, x: K)
    requires x in m
    ensures |m - {x}| == |m| - 1
  {
    assert (m - {x}).Keys == m.Keys - {x};
    assert |m| == |m.Keys| && |m - {x}| == |(m - {x}).Keys|;
  }

  /** The key used longest ago. */
  ghost function Oldest<K(!new)>(m: map<K, nat>): (k: K)
    requires m != map[]
    ensures IsOldest(m, k)
  {
    OldestExists(m);
    var k :| IsOldest(m, k);
    k
  }

  /** What the operation with index `n` does to the held keys and the indices of their last uses. */
  ghost function Step<K(!new), V>(cap: nat, m: map<K, nat>, op: Op<K, V>, n: nat): map<K, nat> {
    match op
    case Get(k) => if k in m then m[k := n] else m
    case Put(k, _) => if k !in m && |m| >= cap && m != map[] then (m - {Oldest(m)})[k := n] else m[k := n]
    case Remove(k) => m - {k}
    case Clear => map[]
  }

  /** The keys a cache of capacity `cap` holds after a trace, each with the index of its last put or hitting get. */
  ghost function Held<K(!new), V>(cap: nat, ops: seq<Op<K, V>>): map<K, nat> {
    if ops == [] then map[] else Step(cap, Held(cap, ops[..|ops| - 1]), ops[|ops| - 1], |ops| - 1)
  }

  /** The value last put under a key. */
  function LastPut<K(==), V>(ops: seq<Op<K, V>>, k: K): Option<V> {
    if ops == [] then None else
      var op := ops[|ops| - 1];
      if op.Put? && op.key == k then Some(op.value) else LastPut(ops[..|ops| - 1], k)
  }

  // ---------------------------------------------------------------- the list follows the trace

  /** The list holds the keys of `m`, last used first. */
  ghost predicate Follows<K, V>(s: seq<Item<K, V>>, m: map<K, nat>) {
    && (forall i :: 0 <= i < |s| ==> s[i].key in m)
    && (forall i, j :: 0 <= i < j < |s| ==> m[s[i].key] > m[s[j].key])
    && (forall k :: k in m ==> Holds(s, k))
  }

  ghost predicate Stamped<K>(m: map<K, nat>, n: nat) {
    forall k :: k in m ==> m[k] < n
  }

  lemma {:induction false} FollowsSize<K, V>(s: seq<Item<K, V>>, m: map<K, nat>)
    requires Follows(s, m) && DistinctKeys(s)
    ensures |s| == |m|
  {
    if s == [] {
      assert m == map[] by {
        assert forall k :: k in m ==> Holds(s, k);
      }
    } else {
      var k, rest := s[0].key, m - {s[0].key};
      FollowsWithout(s, m, k);
      assert Without(s, k) == s[1..];
      SmallerWithout(m, k);
      FollowsSize(s[1..], rest);
    }
  }

  lemma FollowsWithout<K, V>(s: seq<Item<K, V>>, m: map<K, nat>, k: K)
    requires Follows(s, m) && DistinctKeys(s)
    ensures Follows(Without(s, k), m - {k})
  {
    if Holds(s, k) {
      var i :| 0 <= i < |s| && s[i].key == k;
      WithoutAt(s, i);
      hide Without, Find;
      FollowsCut(s, m, i);
    } else {
      NotHeld(s, k);
      WithoutAbsent(s, k);
      assert m - {k} == m;
    }
  }

  lemma FollowsCut<K, V>(s: seq<Item<K, V>>, m: map<K, nat>, i: nat)
    requires Follows(s, m) && DistinctKeys(s) && i < |s|
    ensures Follows(s[..i] + s[i + 1..], m - {s[i].key})
  {
    var t, rest := s[..i] + s[i + 1..], m - {s[i].key};
    forall a | 0 <= a < |t| ensures t[a].key in rest && t[a] == s[if a < i then a else a + 1] {
    }
    forall k | k in rest ensures Holds(t, k) {
      CutHolds(s, i, k);
    }
  }

  lemma CutHolds<K, V>(s: seq<Item<K, V>>, i: nat, k: K)
    requires i < |s| && Holds(s, k) && s[i].key != k
    ensures Holds(s[..i] + s[i + 1..], k)
  {
    var a :| 0 <= a < |s| && s[a].key == k;
    assert (s[..i] + s[i + 1..])[if a < i then a else a - 1].key == k;
  }

  lemma FollowsPush<K, V>(s: seq<Item<K, V>>, m: map<K, nat>, x: Item<K, V>, n: nat)
    requires Follows(s, m) && x.key !in m && Stamped(m, n)
    ensures Follows([x] + s, m[x.key := n]) && Stamped(m[x.key := n], n + 1)
  {
    var t := [x] + s;
    forall k | k in m[x.key := n] ensures Holds(t, k) {
      if k == x.key {
        assert t[0].key == k;
      } else {
        var i :| 0 <= i < |s| && s[i].key == k;
        assert t[i + 1].key == k;
      }
    }
  }

  /** The last item is the one used longest ago. */
  lemma LastIsOldest<K(!new), V>(s: seq<Item<K, V>>, m: map<K, nat>)
    requires Follows(s, m) && DistinctKeys(s) && s != []
    ensures m != map[] && s[|s| - 1].key == Oldest(m)
    ensures Without(s, Oldest(m)) == s[..|s| - 1] && Find(s, Oldest(m)) == Some(s[|s| - 1].value)
  {
    OldestIsLast(s, m);
    hide Follows, Find, Without, Oldest;
    WithoutAt(s, |s| - 1);
    assert s[|s|..] == [];
  }

  lemma OldestIsLast<K(!new), V>(s: seq<Item<K, V>>, m: map<K, nat>)
    requires Follows(s, m) && s != []
    ensures m != map[] && s[|s| - 1].key == Oldest(m)
  {
    hide Oldest;
    var last := s[|s| - 1].key;
    assert last in m;
    var k := Oldest(m);
    assert IsOldest(m, k) && Holds(s, k);
    var i :| 0 <= i < |s| && s[i].key == k;
  }

  lemma FindFollows<K, V>(s: seq<Item<K, V>>, m: map<K, nat>, k: K)
    requires Follows(s, m) && DistinctKeys(s)
    ensures Find(s, k).Some? <==> k in m
  {
    FindHolds(s, k);
  }

  lemma FollowsFront<K, V>(s: seq<Item<K, V>>, m: map<K, nat>, drop: K, x: Item<K, V>, n: nat)
    requires Follows(s, m) && DistinctKeys(s) && Stamped(m, n) && (x.key == drop || x.key !in m)
    ensures Follows([x] + Without(s, drop), (m - {drop})[x.key := n]) && Stamped((m - {drop})[x.key := n], n + 1)
  {
    FollowsWithout(s, m, drop);
    assert Stamped(m - {drop}, n);
    hide Without;
    FollowsPush(Without(s, drop), m - {drop}, x, n);
  }

  lemma StepFollows<K(!new), V>(cap: nat, s: seq<Item<K, V>>, m: map<K, nat>, op: Op<K, V>, n: nat)
    requires cap >= 1 && DistinctKeys(s) && Follows(s, m) && Stamped(m, n)
    ensures Follows(Apply(cap, s, op), Step(cap, m, op, n)) && Stamped(Step(cap, m, op, n), n + 1)
  {
    hide Find, Without, Follows, DistinctKeys, Holds;
    if op.Clear? {
      FollowsNothing<K, V>();
    } else {
      var k := op.key;
      FollowsSize(s, m);
      FindFollows(s, m, k);
      FollowsWithout(s, m, k);
      assert (m - {k})[k := n] == m[k := n];
      if op.Get? && k in m {
        FollowsFront(s, m, k, Item(k, Find(s, k).value), n);
      } else if op.Put? && k in m {
        FollowsFront(s, m, k, Item(k, op.value), n);
      } else if op.Put? && |s| >= cap {
        LastIsOldest(s, m);
        FollowsFront(s, m, Oldest(m), Item(k, op.value), n);
      } else if op.Put? {
        FollowsPush(s, m, Item(k, op.value), n);
      }
    }
  }

  lemma FollowsNothing<K, V>()
    ensures Follows<K, V>([], map[])
  {
  }

  /** After any run the list holds the keys of the trace, in the order of their last uses. */
  lemma {:induction false} RunFollows<K(!new), V>(cap: nat, ops: seq<Op<K, V>>)
    requires cap >= 1
    ensures Follows(Run(cap, ops), Held(cap, ops)) && Stamped(Held(cap, ops), |ops|)
  {
    if ops != [] {
      var n := |ops| - 1;
      RunFollows(cap, ops[..n]);
      RunKeeps(cap, ops[..n]);
      StepFollows(cap, Run(cap, ops[..n]), Held(cap, ops[..n]), ops[n], n);
    }
  }

  // ---------------------------------------------------------------- what is held and what is answered

  lemma {:induction false} FindWithout<K, V>(s: seq<Item<K, V>>, k: K, j: K)
    requires DistinctKeys(s)
    ensures Find(Without(s, k), j) == if j == k then None else Find(s, j)
  {
    if s != [] {
      if s[0].key == k {
        if j == k {
          WithoutAbsent(s[1..], k);
        }
      } else {
        FindWithout(s[1..], k, j);
      }
    }
  }

  lemma FindPush<K, V>(x: Item<K, V>, s: seq<Item<K, V>>, j: K)
    ensures Find([x] + s, j) == if j == x.key then Some(x.value) else Find(s, j)
  {
  }

  /** A cache holds exactly the keys the trace says, each with the value last put under it. */
  lemma {:induction false} HoldsLastPut<K(!new), V>(cap: nat, ops: seq<Op<K, V>>, k: K)
    requires cap >= 1
    ensures Find(Run(cap, ops), k) == if k in Held(cap, ops) then LastPut(ops, k) else None
  {
    if ops != [] {
      var n, op := |ops| - 1, ops[|ops| - 1];
      var s, m := Run(cap, ops[..n]), Held(cap, ops[..n]);
      HoldsLastPut(cap, ops[..n], k);
      RunKeeps(cap, ops[..n]);
      RunFollows(cap, ops[..n]);
      if !op.Clear? {
        HoldsLastPut(cap, ops[..n], op.key);
        FindWithout(s, op.key, k);
        FindFollows(s, m, op.key);
        FindFollows(s, m, k);
        if op.Get? && op.key in m {
          FindPush(Item(op.key, Find(s, op.key).value), Without(s, op.key), k);
        } else if op.Put? {
          PutHolds(cap, s, m, op.key, op.value, k);
        }
      }
    }
  }

  lemma PutHolds<K(!new), V>(cap: nat, s: seq<Item<K, V>>, m: map<K, nat>, k: K, v: V, j: K)
    requires Follows(s, m) && DistinctKeys(s)
    ensures Find(Apply(cap, s, LruList.Put(k, v)), j) ==
            if j == k then Some(v)
            else if k !in m && |m| >= cap && m != map[] && j == Oldest(m) then None
            else Find(s, j)
  {
    FollowsSize(s, m);
    FindFollows(s, m, k);
    if k in m {
      FindWithout(s, k, j);
      FindPush(Item(k, v), Without(s, k), j);
    } else if |s| >= cap && s != [] {
      LastIsOldest(s, m);
      FindWithout(s, Oldest(m), j);
      FindPush(Item(k, v), s[..|s| - 1], j);
    } else {
      FindPush(Item(k, v), s, j);
    }
  }

  /** What an operation after a trace returns: the value last put under a held key, and from a put that evicts the value
      of the key used longest ago. */
  lemma AnswersLastPut<K(!new), V>(cap: nat, ops: seq<Op<K, V>>, op: Op<K, V>)
    requires cap >= 1
    ensures var m := Held(cap, ops);
            Answer(cap, Run(cap, ops), op) ==
            match op
            case Get(k) => if k in m then LastPut(ops, k) else None
            case Put(k, _) =>
              if k in m then LastPut(ops, k) else if |m| >= cap then LastPut(ops, Oldest(m)) else None
            case Remove(k) => if k in m then LastPut(ops, k) else None
            case Clear => None
  {
    var s, m := Run(cap, ops), Held(cap, ops);
    RunKeeps(cap, ops);
    RunFollows(cap, ops);
    FollowsSize(s, m);
    if !op.Clear? {
      HoldsLastPut(cap, ops, op.key);
      FindFollows(s, m, op.key);
      if op.Put? && op.key !in m && |m| >= cap {
        LastIsOldest(s, m);
        HoldsLastPut(cap, ops, Oldest(m));
      }
    }
  }

  // ---------------------------------------------------------------- the most recently used are held

  /** The index of a key's last put or hitting get, if it was not removed or cleared since; evicted keys keep theirs. */
  ghost function LastUse<K(!new), V>(cap: nat, ops: seq<Op<K, V>>, k: K): Option<nat> {
    if ops == [] then None else
      var n, op := |ops| - 1, ops[|ops| - 1];
      match op
      case Get(j) => if j == k && k in Held(cap, ops[..n]) then Some(n) else LastUse(cap, ops[..n], k)
      case Put(j, _) => if j == k then Some(n) else LastUse(cap, ops[..n], k)
      case Remove(j) => if j == k then None else LastUse(cap, ops[..n], k)
      case Clear => None
  }

  ghost predicate Stamps<K(!new), V>(cap: nat, ops: seq<Op<K, V>>) {
    var m := Held(cap, ops);
    && (forall k :: k in m ==> LastUse(cap, ops, k) == Some(m[k]))
    && (forall k :: LastUse(cap, ops, k).Some? ==> LastUse(cap, ops, k).value < |ops|)
    && (forall j, k :: j in m && k in m && j != k ==> m[j] != m[k])
  }

  /** Every key held was used after every key that was evicted and neither removed nor put again. */
  ghost predicate MostRecent<K(!new), V>(cap: nat, ops: seq<Op<K, V>>) {
    var m := Held(cap, ops);
    forall j, k :: k in m && j !in m && LastUse(cap, ops, j).Some? ==> LastUse(cap, ops, j).value < m[k]
  }

  lemma {:induction false} HeldAreMostRecent<K(!new), V>(cap: nat, ops: seq<Op<K, V>>)
    requires cap >= 1
    ensures Stamps(cap, ops) && MostRecent(cap, ops)
  {
    if ops != [] {
      HeldAreMostRecent(cap, ops[..|ops| - 1]);
      StampsStep(cap, ops);
      RecentStep(cap, ops);
    }
  }

  lemma StampsStep<K(!new), V>(cap: nat, ops: seq<Op<K, V>>)
    requires ops != [] && Stamps(cap, ops[..|ops| - 1])
    ensures Stamps(cap, ops)
  {
  }

  lemma RecentStep<K(!new), V>(cap: nat, ops: seq<Op<K, V>>)
    requires ops != [] && Stamps(cap, ops[..|ops| - 1]) && MostRecent(cap, ops[..|ops| - 1])
    ensures MostRecent(cap, ops)
  {
    var p, op := ops[..|ops| - 1], ops[|ops| - 1];
    var m, m2 := Held(cap, p), Held(cap, ops);
    forall j, k | k in m2 && j !in m2 && LastUse(cap, ops, j).Some? ensures LastUse(cap, ops, j).value < m2[k] {
      assert LastUse(cap, ops, j) == LastUse(cap, p, j);
      assert m2[k] == |p| || (k in m && m2[k] == m[k]);
    }
  }

  lemma HeldSize<K(!new), V>(cap: nat, ops: seq<Op<K, V>>)
    requires cap >= 1
    ensures |Held(cap, ops)| == |Run(cap, ops)| <= cap
  {
    RunKeeps(cap, ops);
    RunFollows(cap, ops);
    FollowsSize(Run(cap, ops), Held(cap, ops));
  }

  lemma SizeAfterPut<K>(m: map<K, nat>, k: K, n: nat)
    ensures |m[k := n]| == |m| + if k in m then 0 else 1
  {
    assert m[k := n].Keys == m.Keys + {k};
    assert |m[k := n]| == |m[k := n].Keys| && |m| == |m.Keys|;
  }

  /** The key was put, neither removed nor cleared since, and yet is not held: it was evicted. */
  ghost predicate Evicted<K(!new), V>(cap: nat, ops: seq<Op<K, V>>, j: K) {
    j !in Held(cap, ops) && LastUse(cap, ops, j).Some?
  }

  /** No evicted key would still fit. */
  ghost predicate Filled<K(!new), V>(cap: nat, ops: seq<Op<K, V>>) {
    forall j :: Evicted(cap, ops, j) ==> |Held(cap, ops)| == cap
  }

  /** The operation removes a held key after some other was evicted. */
  ghost predicate Opens<K(!new), V>(cap: nat, ops: seq<Op<K, V>>, op: Op<K, V>) {
    op.Remove? && op.key in Held(cap, ops) && exists j :: Evicted(cap, ops, j)
  }

  /** Only such a removal leaves room that an evicted key would have filled. */
  lemma FilledStep<K(!new), V>(cap: nat, ops: seq<Op<K, V>>)
    requires cap >= 1 && ops != [] && Filled(cap, ops[..|ops| - 1])
    ensures Filled(cap, ops) <==> !Opens(cap, ops[..|ops| - 1], ops[|ops| - 1])
  {
    var p, op := ops[..|ops| - 1], ops[|ops| - 1];
    var m := Held(cap, p);
    HeldSize(cap, p);
    if op.Remove? {
      RemoveOpens(cap, ops);
    } else if op.Put? {
      SizeAfterPut(m, op.key, |p|);
      if op.key !in m && |m| >= cap {
        SmallerWithout(m, Oldest(m));
        SizeAfterPut(m - {Oldest(m)}, op.key, |p|);
      }
      forall j | Evicted(cap, ops, j) ensures |Held(cap, ops)| == cap {
        assert Evicted(cap, p, j) || |m| >= cap;
      }
    } else if op.Get? {
      SizeAfterPut(m, op.key, |p|);
      forall j | Evicted(cap, ops, j) ensures |Held(cap, ops)| == cap {
        assert Evicted(cap, p, j);
      }
    }
  }

  lemma RemoveOpens<K(!new), V>(cap: nat, ops: seq<Op<K, V>>)
    requires cap >= 1 && ops != [] && ops[|ops| - 1].Remove? && Filled(cap, ops[..|ops| - 1])
    ensures Filled(cap, ops) <==> !Opens(cap, ops[..|ops| - 1], ops[|ops| - 1])
  {
    var p, k := ops[..|ops| - 1], ops[|ops| - 1].key;
    var m := Held(cap, p);
    HeldSize(cap, p);
    forall j ensures Evicted(cap, ops, j) <==> Evicted(cap, p, j) && j != k {
    }
    if k in m {
      SmallerWithout(m, k);
    } else {
      assert m - {k} == m;
    }
  }

  ghost predicate NeverOpens<K(!new), V>(cap: nat, ops: seq<Op<K, V>>) {
    forall i :: 0 <= i < |ops| ==> !Opens(cap, ops[..i], ops[i])
  }

  lemma {:induction false} StaysFilled<K(!new), V>(cap: nat, ops: seq<Op<K, V>>)
    requires cap >= 1 && NeverOpens(cap, ops)
    ensures Filled(cap, ops)
  {
    if ops != [] {
      var n := |ops| - 1;
      assert NeverOpens(cap, ops[..n]) by {
        forall i | 0 <= i < n ensures !Opens(cap, ops[..n][..i], ops[..n][i]) {
          assert ops[..n][..i] == ops[..i];
        }
      }
      StaysFilled(cap, ops[..n]);
      FilledStep(cap, ops);
    }
  }

  /** The keys put and not removed or cleared since. */
  ghost function Live<K(!new), V>(cap: nat, ops: seq<Op<K, V>>): set<K> {
    set i | 0 <= i < |ops| && !ops[i].Clear? && LastUse(cap, ops, ops[i].key).Some? :: ops[i].key
  }

  lemma {:induction false} UsedInTrace<K(!new), V>(cap: nat, ops: seq<Op<K, V>>, n: nat, k: K)
    requires n <= |ops| && LastUse(cap, ops[..n], k).Some?
    ensures exists i :: 0 <= i < |ops| && !ops[i].Clear? && ops[i].key == k
  {
    if n > 0 {
      var p, op := ops[..n], ops[n - 1];
      assert p[n - 1] == op && p[..n - 1] == ops[..n - 1];
      if !op.Clear? && op.key == k {
        assert ops[n - 1].key == k;
      } else {
        UsedInTrace(cap, ops, n - 1, k);
      }
    }
  }

  lemma LiveMeans<K(!new), V>(cap: nat, ops: seq<Op<K, V>>, k: K)
    ensures k in Live(cap, ops) <==> LastUse(cap, ops, k).Some?
  {
    if LastUse(cap, ops, k).Some? {
      assert ops[..|ops|] == ops;
      UsedInTrace(cap, ops, |ops|, k);
    }
  }

  /** As many live keys are held as fit, exactly while no evicted key would still fit. */
  lemma FilledMeans<K(!new), V>(cap: nat, ops: seq<Op<K, V>>)
    requires cap >= 1
    ensures Held(cap, ops).Keys <= Live(cap, ops)
    ensures |Held(cap, ops)| == Min(cap, |Live(cap, ops)|) <==> Filled(cap, ops)
  {
    var m, live := Held(cap, ops), Live(cap, ops);
    HeldAreMostRecent(cap, ops);
    HeldSize(cap, ops);
    forall k ensures k in live <==> LastUse(cap, ops, k).Some? {
      LiveMeans(cap, ops, k);
    }
    assert |m.Keys| == |m|;
    ProperSubsetSize(m.Keys, live);
    if m.Keys != live {
      var j :| j in live && j !in m;
      assert Evicted(cap, ops, j);
    }
  }

  /** Over every run that removes no held key after an eviction, the keys held are the most recently used of the live
      ones, as many as fit. */
  lemma HoldsAsManyAsFit<K(!new), V>(cap: nat, ops: seq<Op<K, V>>)
    requires cap >= 1 && NeverOpens(cap, ops)
    ensures Held(cap, ops).Keys <= Live(cap, ops) && |Held(cap, ops)| == Min(cap, |Live(cap, ops)|)
    ensures MostRecent(cap, ops)
  {
    HeldAreMostRecent(cap, ops);
    StaysFilled(cap, ops);
    FilledMeans(cap, ops);
  }

  lemma {:induction false} ProperSubsetSize<T>(a: set<T>, b: set<T>)
    requires a <= b
    ensures a != b ==> |a| < |b|
  {
    if a != {} {
      var x :| x in a;
      ProperSubsetSize(a - {x}, b - {x});
    }
  }

  /** A removal leaves room that no evicted key comes back to fill: the live `a` and `b` would both fit, but only `b`
      is held. */
  lemma RemovalLeavesRoom<K(!new), V>(a: K, b: K, c: K, v: V)
    requires a != b && b != c && a != c
    ensures var ops := [LruList.Put(a, v), LruList.Put(b, v), LruList.Put(c, v), LruList.Remove(c)];
            Held(2, ops).Keys == {b} && a in Live(2, ops) && b in Live(2, ops)
  {
    var ops := [LruList.Put(a, v), LruList.Put(b, v), LruList.Put(c, v), LruList.Remove(c)];
    var p1, p2, p3 := ops[..1], ops[..2], ops[..3];
    assert p1[..0] == [] && p2[..1] == p1 && p3[..2] == p2 && ops[..3] == p3;
    assert Held(2, p1) == map[a := 0];
    assert Held(2, p2) == map[a := 0, b := 1];
    var oldest := Oldest(Held(2, p2));
    assert IsOldest(Held(2, p2), oldest) && Held(2, p2)[oldest] <= Held(2, p2)[a];
    assert Held(2, p3) == map[b := 1, c := 2];
    LiveMeans(2, ops, a);
    LiveMeans(2, ops, b);
    assert LastUse(2, p1, a) == Some(0) && LastUse(2, p2, b) == Some(1);
    assert LastUse(2, p2, a) == Some(0);
  }
}
