/** The plain recency list that the cache stands for, and the inclusion theorem on it. */
module LruList {
  import opened Common

  /** One cached pair; lists of these run from most to least recently used. */
  datatype Item<K, V> = Item(key: K, value: V)

  ghost predicate DistinctKeys<K, V>(s: seq<Item<K, V>>) {
    forall i, j :: 0 <= i < j < |s| ==> s[i].key != s[j].key
  }

  predicate Holds<K(==), V>(s: seq<Item<K, V>>, k: K) {
    exists i :: 0 <= i < |s| && s[i].key == k
  }

  /** The list without the item of key `k`. */
  function Without<K(==), V>(s: seq<Item<K, V>>, k: K): seq<Item<K, V>> {
    if s == [] then []
    else if s[0].key == k then s[1..]
    else [s[0]] + Without(s[1..], k)
  }

  function Find<K(==), V>(s: seq<Item<K, V>>, k: K): Option<V> {
    if s == [] then None
    else if s[0].key == k then Some(s[0].value)
    else Find(s[1..], k)
  }

  datatype Op<K, V> = Get(key: K) | Put(key: K, value: V) | Remove(key: K) | Clear

  /** What each cache operation does to a recency list of capacity `cap`. */
  function Apply<K(==), V>(cap: nat, s: seq<Item<K, V>>, op: Op<K, V>): seq<Item<K, V>> {
    match op
    case Get(k) =>
      (match Find(s, k)
       case None => s
       case Some(v) => [Item(k, v)] + Without(s, k))
    case Put(k, v) =>
      if Find(s, k).Some? then [Item(k, v)] + Without(s, k)
      else if |s| >= cap && s != [] then [Item(k, v)] + s[..|s| - 1]
      else [Item(k, v)] + s
    case Remove(k) => Without(s, k)
    case Clear => []
  }

  /** The value each cache operation returns; an inserting `Put` returns the evicted value. */
  function Answer<K(==), V>(cap: nat, s: seq<Item<K, V>>, op: Op<K, V>): Option<V> {
    match op
    case Get(k) => Find(s, k)
    case Put(k, v) =>
      if Find(s, k).Some? then Find(s, k)
      else if |s| >= cap && s != [] then Some(s[|s| - 1].value)
      else None
    case Remove(k) => Find(s, k)
    case Clear => None
  }

  function Run<K(==), V>(cap: nat, ops: seq<Op<K, V>>): seq<Item<K, V>> {
    if ops == [] then [] else Apply(cap, Run(cap, ops[..|ops| - 1]), ops[|ops| - 1])
  }

  // ---------------------------------------------------------------- list lemmas

  lemma {:induction false} WithoutAt<K, V>(s: seq<Item<K, V>>, i: nat)
    requires i < |s| && DistinctKeys(s)
    ensures Without(s, s[i].key) == s[..i] + s[i + 1..]
    ensures Find(s, s[i].key) == Some(s[i].value)
  {
    if i > 0 {
      WithoutAt(s[1..], i - 1);
      assert s[1..][..i - 1] == s[1..i] && s[1..][i..] == s[i + 1..];
    }
  }

  lemma {:induction false} WithoutAbsent<K, V>(s: seq<Item<K, V>>, k: K)
    requires forall i :: 0 <= i < |s| ==> s[i].key != k
    ensures Without(s, k) == s && Find(s, k) == None
  {
    if s != [] {
      WithoutAbsent(s[1..], k);
    }
  }

  /** `Find` and `Holds` agree. */
  lemma FindHolds<K, V>(s: seq<Item<K, V>>, k: K)
    requires DistinctKeys(s)
    ensures Find(s, k).Some? <==> Holds(s, k)
    ensures Find(s, k).Some? ==> |Without(s, k)| == |s| - 1
    ensures DistinctKeys(Without(s, k)) && !Holds(Without(s, k), k)
  {
    if Holds(s, k) {
      var i :| 0 <= i < |s| && s[i].key == k;
      WithoutAt(s, i);
    } else {
      WithoutAbsent(s, k);
    }
  }

  /** Every operation keeps keys distinct and the list within capacity. */
  lemma ApplyKeeps<K, V>(cap: nat, s: seq<Item<K, V>>, op: Op<K, V>)
    requires cap >= 1 && DistinctKeys(s) && |s| <= cap
    ensures DistinctKeys(Apply(cap, s, op)) && |Apply(cap, s, op)| <= cap
  {
    hide Find, Without, DistinctKeys, Holds;
    if !op.Clear? {
      FindHolds(s, op.key);
      if !Holds(s, op.key) {
        NotHeld(s, op.key);
        WithoutAbsent(s, op.key);
      }
      if op.Put? {
        PushKeeps(Item(op.key, op.value), Without(s, op.key));
      } else if Find(s, op.key).Some? {
        PushKeeps(Item(op.key, Find(s, op.key).value), Without(s, op.key));
      }
    }
    NothingKeeps<K, V>();
  }

  lemma NothingKeeps<K, V>()
    ensures DistinctKeys<K, V>([])
  {
  }

  lemma NotHeld<K, V>(s: seq<Item<K, V>>, k: K)
    requires !Holds(s, k)
    ensures forall i :: 0 <= i < |s| ==> s[i].key != k
  {
  }

  lemma PushKeeps<K, V>(x: Item<K, V>, t: seq<Item<K, V>>)
    requires DistinctKeys(t) && !Holds(t, x.key)
    ensures DistinctKeys([x] + t) && (t != [] ==> DistinctKeys([x] + t[..|t| - 1]))
  {
  }

  /** Over any run the list stays within capacity and never holds a key twice. */
  lemma {:induction false} RunKeeps<K, V>(cap: nat, ops: seq<Op<K, V>>)
    requires cap >= 1
    ensures DistinctKeys(Run(cap, ops)) && |Run(cap, ops)| <= cap
  {
    if ops != [] {
      RunKeeps(cap, ops[..|ops| - 1]);
      ApplyKeeps(cap, Run(cap, ops[..|ops| - 1]), ops[|ops| - 1]);
    }
  }

  // ---------------------------------------------------------------- inclusion

  /** `s` can be read off `b` by skipping elements. */
  ghost predicate Subsequence<T>(s: seq<T>, b: seq<T>) {
    || s == []
    || (b != [] && s[0] == b[0] && Subsequence(s[1..], b[1..]))
    || (b != [] && Subsequence(s, b[1..]))
  }

  lemma {:induction false} SubsequenceMembers<T>(s: seq<T>, b: seq<T>)
    requires Subsequence(s, b)
    ensures |s| <= |b| && forall i :: 0 <= i < |s| ==> s[i] in b
  {
    if s != [] {
      if s[0] == b[0] && Subsequence(s[1..], b[1..]) {
        SubsequenceMembers(s[1..], b[1..]);
        forall i | 0 < i < |s| ensures s[i] in b {
          assert s[i] == s[1..][i - 1];
        }
      } else {
        SubsequenceMembers(s, b[1..]);
      }
    }
  }

  lemma {:induction false} SubsequenceWithout<K, V>(s: seq<Item<K, V>>, b: seq<Item<K, V>>, k: K)
    requires Subsequence(s, b) && DistinctKeys(s) && DistinctKeys(b)
    ensures Subsequence(Without(s, k), Without(b, k))
  {
    if s != [] {
      if s[0] == b[0] && Subsequence(s[1..], b[1..]) {
        if s[0].key != k {
          SubsequenceWithout(s[1..], b[1..], k);
          assert Without(s, k)[1..] == Without(s[1..], k) && Without(b, k)[1..] == Without(b[1..], k);
        }
      } else if b[0].key == k {
        SubsequenceMembers(s, b[1..]);
        WithoutAbsent(s, k);
      } else {
        SubsequenceWithout(s, b[1..], k);
        assert Without(b, k)[1..] == Without(b[1..], k);
      }
    }
  }

  /** Dropping the last element of both, or of the shorter only, keeps the relation. */
  lemma {:induction false} SubsequenceDropLast<T>(s: seq<T>, b: seq<T>)
    requires Subsequence(s, b) && s != []
    ensures Subsequence(s[..|s| - 1], b[..|b| - 1])
    ensures Subsequence(s[..|s| - 1], b)
  {
    if s[0] == b[0] && Subsequence(s[1..], b[1..]) {
      if |s| > 1 {
        SubsequenceDropLast(s[1..], b[1..]);
        assert s[1..][..|s| - 2] == s[..|s| - 1][1..];
        if |b| > 1 {
          assert b[1..][..|b| - 2] == b[..|b| - 1][1..];
        }
      }
    } else {
      SubsequenceDropLast(s, b[1..]);
      if |b| > 1 {
        assert b[1..][..|b| - 2] == b[..|b| - 1][1..];
      }
    }
  }

  /** A cache of capacity `c` beside one of capacity `c2`: the smaller list is a
      subsequence of the larger, and the larger is ahead by no more than the capacities are. */
  ghost predicate Included<K, V>(c: nat, c2: nat, s: seq<Item<K, V>>, b: seq<Item<K, V>>) {
    && DistinctKeys(s) && DistinctKeys(b)
    && |s| <= c && |b| <= c2
    && Subsequence(s, b)
    && |b| - |s| <= c2 - c
  }

  lemma FindIncluded<K, V>(c: nat, c2: nat, s: seq<Item<K, V>>, b: seq<Item<K, V>>, k: K)
    requires Included(c, c2, s, b) && Find(s, k).Some?
    ensures Find(b, k) == Find(s, k)
  {
    FindHolds(s, k);
    var i :| 0 <= i < |s| && s[i].key == k;
    WithoutAt(s, i);
    SubsequenceMembers(s, b);
    var j :| 0 <= j < |b| && b[j] == s[i];
    WithoutAt(b, j);
  }

  lemma StepIncluded<K, V>(c: nat, c2: nat, s: seq<Item<K, V>>, b: seq<Item<K, V>>, op: Op<K, V>)
    requires 1 <= c <= c2 && Included(c, c2, s, b)
    ensures Included(c, c2, Apply(c, s, op), Apply(c2, b, op))
  {
    ApplyKeeps(c, s, op);
    ApplyKeeps(c2, b, op);
    if !op.Clear? {
      var k := op.key;
      var s2, b2 := Apply(c, s, op), Apply(c2, b, op);
      FindHolds(s, k);
      FindHolds(b, k);
      SubsequenceWithout(s, b, k);
      if Find(s, k).Some? {
        FindIncluded(c, c2, s, b, k);
      } else {
        WithoutAbsent(s, k);
        if s != [] {
          SubsequenceDropLast(s, b);
          SubsequenceDropLast(s, Without(b, k));
        }
      }
      if !Find(b, k).Some? {
        WithoutAbsent(b, k);
      }
      if op.Put? {
        assert s2[0] == b2[0] && s2 == [s2[0]] + s2[1..] && b2 == [b2[0]] + b2[1..];
      } else if op.Get? && Find(s, k).Some? {
        assert s2[1..] == Without(s, k) && b2[1..] == Without(b, k);
      } else if op.Get? && Find(b, k).Some? {
        assert b2[1..] == Without(b, k);
      }
    }
  }

  /** Inclusion: on any trace, the smaller cache holds a subsequence of the larger one, so
      whatever the smaller answers, the larger answers too, with the same value. */
  lemma {:induction false} Inclusion<K, V>(c: nat, c2: nat, ops: seq<Op<K, V>>)
    requires 1 <= c <= c2
    ensures Included(c, c2, Run(c, ops), Run(c2, ops))
    ensures forall k :: Find(Run(c, ops), k).Some? ==> Find(Run(c2, ops), k) == Find(Run(c, ops), k)
  {
    if ops != [] {
      var rest := ops[..|ops| - 1];
      Inclusion(c, c2, rest);
      StepIncluded(c, c2, Run(c, rest), Run(c2, rest), ops[|ops| - 1]);
    }
    forall k | Find(Run(c, ops), k).Some? ensures Find(Run(c2, ops), k) == Find(Run(c, ops), k) {
      FindIncluded(c, c2, Run(c, ops), Run(c2, ops), k);
    }
  }
}
