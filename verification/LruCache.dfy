/** The cache itself: a doubly linked list threaded through a slot vector. */
module Lru {
  import opened Common
  import opened LruList
  import LruTrace

  datatype CacheEntry<V> = CacheEntry(value: V, prev: Option<nat>, next: Option<nat>)

  /** The slot before, and the slot after, position `i` of a list of slots. */
  ghost function PrevOf(order: seq<nat>, i: nat): Option<nat>
    requires i < |order|
  {
    if i == 0 then None else Some(order[i - 1])
  }

  ghost function NextOf(order: seq<nat>, i: nat): Option<nat>
    requires i < |order|
  {
    if i + 1 == |order| then None else Some(order[i + 1])
  }

  ghost function First(order: seq<nat>): Option<nat> {
    if order == [] then None else Some(order[0])
  }

  ghost function Last(order: seq<nat>): Option<nat> {
    if order == [] then None else Some(order[|order| - 1])
  }

  /** Names an element access, so that `Distinct` is used only where it is needed. */
  ghost function At<T>(s: seq<T>, i: nat): T
    requires i < |s|
  {
    s[i]
  }

  ghost predicate Distinct<T>(s: seq<T>) {
    forall i, j {:trigger At(s, i), At(s, j)} :: 0 <= i < j < |s| ==> At(s, i) != At(s, j)
  }

  /** `order` lists distinct occupied slots. */
  ghost predicate Occupied<V>(entries: seq<Option<CacheEntry<V>>>, order: seq<nat>) {
    && (forall i :: 0 <= i < |order| ==> order[i] < |entries| && entries[order[i]].Some?)
    && Distinct(order)
  }

  ghost predicate LinkAt<V>(entries: seq<Option<CacheEntry<V>>>, order: seq<nat>, i: nat)
    requires i < |order| && Occupied(entries, order)
  {
    && entries[order[i]].value.prev == PrevOf(order, i)
    && entries[order[i]].value.next == NextOf(order, i)
  }

  /** Walking the links from the first slot of `order` visits exactly `order`, both ways. */
  ghost predicate Linked<V>(entries: seq<Option<CacheEntry<V>>>, order: seq<nat>) {
    && Occupied(entries, order)
    && (forall i {:trigger LinkAt(entries, order, i)} :: 0 <= i < |order| ==> LinkAt(entries, order, i))
  }

  ghost predicate Free<V>(entries: seq<Option<CacheEntry<V>>>, freeList: seq<nat>) {
    && (forall f :: 0 <= f < |freeList| ==> freeList[f] < |entries| && entries[freeList[f]].None?)
    && Distinct(freeList)
  }

  ghost predicate Listed<K>(keys: seq<K>, k: K) {
    exists i :: 0 <= i < |keys| && keys[i] == k
  }

  /** The key map holds exactly the listed keys, each at its listed slot. */
  ghost predicate Indexed<K>(index: map<K, nat>, order: seq<nat>, keys: seq<K>) {
    && |keys| == |order|
    && Distinct(keys)
    && (forall i :: 0 <= i < |keys| ==> keys[i] in index && index[keys[i]] == order[i])
    && (forall k {:trigger Listed(keys, k)} :: k in index ==> Listed(keys, k))
  }

  /** The two slot vectors hold the same values; only links may differ. */
  ghost predicate SameValues<V>(a: seq<Option<CacheEntry<V>>>, b: seq<Option<CacheEntry<V>>>) {
    && |a| == |b|
    && (forall s :: 0 <= s < |a| ==>
          a[s].Some? == b[s].Some? && (a[s].Some? ==> a[s].value.value == b[s].value.value))
  }

  ghost function Items<K, V>(entries: seq<Option<CacheEntry<V>>>, order: seq<nat>, keys: seq<K>): (s: seq<Item<K, V>>)
    requires Occupied(entries, order) && |keys| == |order|
    ensures |s| == |order|
    ensures forall i :: 0 <= i < |s| ==> s[i] == Item(keys[i], entries[order[i]].value.value)
  {
    seq(|order|, i requires 0 <= i < |order| => Item(keys[i], entries[order[i]].value.value))
  }

  /** A sequence without position `i`. */
  ghost function Cut<T>(s: seq<T>, i: nat): seq<T>
    requires i < |s|
  {
    s[..i] + s[i + 1..]
  }

  /** The entry vector after writing one link of slot `s`. */
  function SetPrev<V>(entries: seq<Option<CacheEntry<V>>>, s: nat, p: Option<nat>): (r: seq<Option<CacheEntry<V>>>)
    requires s < |entries| && entries[s].Some?
    ensures SameValues(entries, r)
  {
    entries[s := Some(entries[s].value.(prev := p))]
  }

  function SetNext<V>(entries: seq<Option<CacheEntry<V>>>, s: nat, n: Option<nat>): (r: seq<Option<CacheEntry<V>>>)
    requires s < |entries| && entries[s].Some?
    ensures SameValues(entries, r)
  {
    entries[s := Some(entries[s].value.(next := n))]
  }

  /** `b` keeps every occupied slot of `a`. */
  ghost predicate Filled<V>(a: seq<Option<CacheEntry<V>>>, b: seq<Option<CacheEntry<V>>>) {
    |a| <= |b| && forall s :: 0 <= s < |a| && a[s].Some? ==> b[s] == a[s]
  }

  /** Filling a slot that is not on the list disturbs no link. */
  lemma FillKeepsLinks<V>(e: seq<Option<CacheEntry<V>>>, order: seq<nat>, e2: seq<Option<CacheEntry<V>>>)
    requires Linked(e, order) && Filled(e, e2)
    ensures Linked(e2, order)
  {
    forall i | 0 <= i < |order| ensures order[i] < |e2| && e2[order[i]] == e[order[i]] {
    }
    forall i | 0 <= i < |order| ensures LinkAt(e2, order, i) {
      assert LinkAt(e, order, i);
    }
  }

  lemma CutDistinct<T>(s: seq<T>, i: nat)
    requires Distinct(s) && i < |s|
    ensures Distinct(Cut(s, i)) && s[i] !in Cut(s, i)
  {
    var c := Cut(s, i);
    forall j, k | 0 <= j < k < |c| ensures At(c, j) != At(c, k) {
      assert At(s, if j < i then j else j + 1) != At(s, if k < i then k else k + 1);
    }
    forall j | 0 <= j < |c| ensures c[j] != s[i] {
      assert At(s, if j < i then j else j + 1) == c[j] && At(s, i) == s[i];
    }
  }

  lemma ConsDistinct<T>(s: seq<T>, x: T)
    requires Distinct(s) && x !in s
    ensures Distinct([x] + s) && Distinct(s + [x])
  {
    var c, d := [x] + s, s + [x];
    forall j, k | 0 <= j < k < |c| ensures At(c, j) != At(c, k) && At(d, j) != At(d, k) {
      if j > 0 {
        assert At(s, j - 1) != At(s, k - 1);
      }
      if k < |s| {
        assert At(s, j) != At(s, k);
      }
    }
  }

  lemma UnlinkKeepsLinks<V>(e: seq<Option<CacheEntry<V>>>, order: seq<nat>, i: nat, e2: seq<Option<CacheEntry<V>>>)
    requires Linked(e, order) && i < |order|
    requires var p, n := PrevOf(order, i), NextOf(order, i);
             var e1 := if p.Some? then SetNext(e, p.value, n) else e;
             e2 == if n.Some? then SetPrev(e1, n.value, p) else e1
    ensures Linked(e2, Cut(order, i)) && order[i] !in Cut(order, i)
  {
    var order2 := Cut(order, i);
    CutDistinct(order, i);
    forall j | 0 <= j < |order2| ensures LinkAt(e2, order2, j) {
      UnlinkKeepsLinkAt(e, order, i, e2, j);
    }
  }

  lemma UnlinkKeepsLinkAt<V>(e: seq<Option<CacheEntry<V>>>, order: seq<nat>, i: nat, e2: seq<Option<CacheEntry<V>>>,
                             j: nat)
    requires Linked(e, order) && i < |order| && j < |Cut(order, i)| && Occupied(e2, Cut(order, i))
    requires var p, n := PrevOf(order, i), NextOf(order, i);
             var e1 := if p.Some? then SetNext(e, p.value, n) else e;
             e2 == if n.Some? then SetPrev(e1, n.value, p) else e1
    ensures LinkAt(e2, Cut(order, i), j)
  {
    var k := if j < i then j else j + 1;
    assert LinkAt(e, order, k) && Cut(order, i)[j] == At(order, k);
    assert k != i - 1 ==> PrevOf(order, i) != Some(order[k]) by {
      if i > 0 { assert At(order, i - 1) == order[i - 1]; }
    }
    assert k != i + 1 ==> NextOf(order, i) != Some(order[k]) by {
      if i + 1 < |order| { assert At(order, i + 1) == order[i + 1]; }
    }
  }

  lemma PushFrontKeepsLinks<V>(e: seq<Option<CacheEntry<V>>>, order: seq<nat>, s: nat, e2: seq<Option<CacheEntry<V>>>)
    requires Linked(e, order) && s < |e| && e[s].Some? && s !in order
    requires var e1 := SetNext(SetPrev(e, s, None), s, First(order));
             e2 == if order == [] then e1 else SetPrev(e1, order[0], Some(s))
    ensures Linked(e2, [s] + order)
  {
    var order2 := [s] + order;
    ConsDistinct(order, s);
    forall j | 0 <= j < |order2| ensures LinkAt(e2, order2, j) {
      if j > 0 {
        assert LinkAt(e, order, j - 1) && order2[j] == At(order, j - 1) && At(order, 0) == order[0];
      }
    }
  }

  /** Emptying a slot that has left the list, and freeing it. */
  lemma ReleaseKeeps<V>(e: seq<Option<CacheEntry<V>>>, order: seq<nat>, freeList: seq<nat>, t: nat)
    requires Linked(e, order) && Free(e, freeList)
    requires t < |e| && e[t].Some? && t !in order
    ensures Linked(e[t := None], order) && Free(e[t := None], freeList + [t])
  {
    var e2 := e[t := None];
    ConsDistinct(freeList, t);
    forall i | 0 <= i < |order| ensures LinkAt(e2, order, i) {
      assert LinkAt(e, order, i);
    }
  }

  /** Overwriting the value of a listed slot disturbs no link and frees nothing. */
  lemma RewriteKeeps<V>(e: seq<Option<CacheEntry<V>>>, order: seq<nat>, freeList: seq<nat>, t: nat, v: V)
    requires Linked(e, order) && Free(e, freeList) && t < |e| && e[t].Some?
    ensures var e2 := e[t := Some(e[t].value.(value := v))]; Linked(e2, order) && Free(e2, freeList)
  {
    var e2 := e[t := Some(e[t].value.(value := v))];
    forall i | 0 <= i < |order| ensures LinkAt(e2, order, i) {
      assert LinkAt(e, order, i);
    }
  }

  // ---------------------------------------------------------------- the whole representation

  /** The fields of a cache, with the slots in list order and their keys. */
  datatype Rep<K, V> = Rep(
    index: map<K, nat>, entries: seq<Option<CacheEntry<V>>>, freeList: seq<nat>,
    head: Option<nat>, tail: Option<nat>, order: seq<nat>, keys: seq<K>)

  ghost predicate ListOk<V>(entries: seq<Option<CacheEntry<V>>>, head: Option<nat>, tail: Option<nat>,
                            order: seq<nat>) {
    Linked(entries, order) && head == First(order) && tail == Last(order)
  }

  /** Every slot is either on the list or free, never both. */
  ghost predicate SlotsOk<V>(entries: seq<Option<CacheEntry<V>>>, freeList: seq<nat>, order: seq<nat>) {
    Free(entries, freeList) && |entries| == |order| + |freeList|
  }

  ghost predicate RepOk<K, V>(r: Rep<K, V>) {
    && ListOk(r.entries, r.head, r.tail, r.order)
    && SlotsOk(r.entries, r.freeList, r.order)
    && Indexed(r.index, r.order, r.keys)
  }

  ghost function ItemsOf<K, V>(r: Rep<K, V>): (s: seq<Item<K, V>>)
    requires RepOk(r)
    ensures |s| == |r.order| == |r.keys|
  {
    Items(r.entries, r.order, r.keys)
  }

  /** What the tail field says about the least recent item. */
  lemma Tail<K, V>(r: Rep<K, V>)
    requires RepOk(r)
    ensures ListOk(r.entries, r.head, r.tail, r.order)
    ensures if r.order == [] then r.tail == None else
              var last := |r.order| - 1;
              && r.tail == Some(r.order[last]) && r.order[last] < |r.entries|
              && r.entries[r.order[last]] == Some(r.entries[r.order[last]].value)
              && ItemsOf(r)[last].value == r.entries[r.order[last]].value.value
              && (map k | k in r.index && r.index[k] != r.order[last] :: r.index[k]) == r.index - {r.keys[last]}
  {
    if r.order != [] {
      IndexCut(r.index, r.order, r.keys, |r.order| - 1);
    }
  }

  lemma Kept<V>(a: seq<Option<CacheEntry<V>>>, b: seq<Option<CacheEntry<V>>>, s: nat)
    requires SameValues(a, b) && s < |a| && a[s].Some?
    ensures |a| == |b| && b[s].Some? && b[s].value.value == a[s].value.value
  {
  }

  /** Where a key sits, and what the plain list says about it. */
  lemma Locate<K, V>(r: Rep<K, V>, k: K) returns (i: nat)
    requires RepOk(r)
    ensures ListOk(r.entries, r.head, r.tail, r.order)
    ensures var s := ItemsOf(r);
            if k in r.index then
              && i < |r.order| && r.keys[i] == k && r.order[i] == r.index[k]
              && r.order[i] < |r.entries| && r.entries[r.order[i]].Some?
              && s[i] == Item(k, r.entries[r.order[i]].value.value)
              && Without(s, k) == Cut(s, i) && Find(s, k) == Some(r.entries[r.order[i]].value.value)
            else
              Without(s, k) == s && Find(s, k) == None
  {
    var s := ItemsOf(r);
    i := 0;
    forall a, b | 0 <= a < b < |s| ensures s[a].key != s[b].key {
      assert At(r.keys, a) != At(r.keys, b);
    }
    if k in r.index {
      assert Listed(r.keys, k);
      i :| 0 <= i < |r.keys| && r.keys[i] == k;
      WithoutAt(s, i);
    } else {
      WithoutAbsent(s, k);
    }
  }

  /** Dropping one position from the list, its keys and the key map. */
  lemma IndexCut<K>(index: map<K, nat>, order: seq<nat>, keys: seq<K>, i: nat)
    requires Indexed(index, order, keys) && i < |order| && Distinct(order)
    ensures Indexed(index - {keys[i]}, Cut(order, i), Cut(keys, i))
    ensures (map k | k in index && index[k] != order[i] :: index[k]) == index - {keys[i]}
  {
    var m, keys2 := index - {keys[i]}, Cut(keys, i);
    CutDistinct(keys, i);
    forall k | k in m ensures Listed(keys2, k) {
      assert Listed(keys, k);
      var j :| 0 <= j < |keys| && keys[j] == k;
      assert keys2[if j < i then j else j - 1] == k;
    }
    forall k | k in index && index[k] == order[i] ensures k == keys[i] {
      assert Listed(keys, k);
      var j :| 0 <= j < |keys| && keys[j] == k;
      assert At(order, j) == At(order, i);
    }
    forall j | 0 <= j < |keys2| ensures keys2[j] in m && m[keys2[j]] == Cut(order, i)[j] {
      assert keys2[j] == keys[if j < i then j else j + 1];
    }
  }

  lemma IndexCons<K>(index: map<K, nat>, order: seq<nat>, keys: seq<K>, k: K, t: nat)
    requires Indexed(index, order, keys) && k !in index
    ensures Indexed(index[k := t], [t] + order, [k] + keys)
  {
    var keys2 := [k] + keys;
    ConsDistinct(keys, k);
    forall x | x in index[k := t] ensures Listed(keys2, x) {
      if x == k {
        assert keys2[0] == k;
      } else {
        assert Listed(keys, x);
        var j :| 0 <= j < |keys| && keys[j] == x;
        assert keys2[j + 1] == x;
      }
    }
  }

  /** The key map has as many keys as the list has slots. */
  lemma {:induction false} IndexedSize<K>(index: map<K, nat>, order: seq<nat>, keys: seq<K>)
    requires Indexed(index, order, keys) && Distinct(order)
    ensures |index| == |order|
    decreases |order|
  {
    if order == [] {
      forall k ensures k !in index {
        assert !Listed(keys, k);
      }
      assert index == map[];
    } else {
      IndexCut(index, order, keys, 0);
      CutDistinct(order, 0);
      IndexedSize(index - {keys[0]}, Cut(order, 0), Cut(keys, 0));
      assert index.Keys == (index - {keys[0]}).Keys + {keys[0]};
      assert |index.Keys| == |index|;
    }
  }

  /** After moving position `i` to the front. */
  lemma Touched<K, V>(r: Rep<K, V>, r2: Rep<K, V>, i: nat)
    requires RepOk(r) && i < |r.order|
    requires SameValues(r.entries, r2.entries) && ListOk(r2.entries, r2.head, r2.tail, r2.order)
    requires r2.order == [r.order[i]] + Cut(r.order, i) && r2.keys == [r.keys[i]] + Cut(r.keys, i)
    requires r2.index == r.index && r2.freeList == r.freeList
    ensures RepOk(r2) && ItemsOf(r2) == [ItemsOf(r)[i]] + Cut(ItemsOf(r), i)
    ensures |r2.entries| == |r.entries| && r.order[i] < |r2.entries| && r2.entries[r.order[i]].Some?
    ensures r2.entries[r.order[i]].value.value == ItemsOf(r)[i].value
  {
    IndexCut(r.index, r.order, r.keys, i);
    var m := r.index - {r.keys[i]};
    IndexCons(m, Cut(r.order, i), Cut(r.keys, i), r.keys[i], r.order[i]);
    assert m[r.keys[i] := r.order[i]] == r.index;
  }

  /** After unlinking position `i`, emptying its slot and freeing it. */
  lemma Dropped<K, V>(r: Rep<K, V>, r2: Rep<K, V>, i: nat, e: seq<Option<CacheEntry<V>>>)
    requires RepOk(r) && i < |r.order|
    requires SameValues(r.entries, e) && ListOk(e, r2.head, r2.tail, r2.order)
    requires r.order[i] < |e| && r.order[i] !in r2.order && r2.entries == e[r.order[i] := None]
    requires r2.order == Cut(r.order, i) && r2.keys == Cut(r.keys, i)
    requires r2.index == r.index - {r.keys[i]} && r2.freeList == r.freeList + [r.order[i]]
    ensures RepOk(r2) && ItemsOf(r2) == Cut(ItemsOf(r), i)
  {
    IndexCut(r.index, r.order, r.keys, i);
    ReleaseKeeps(e, r2.order, r.freeList, r.order[i]);
  }

  /** After overwriting the value of position `i`. */
  lemma Rewritten<K, V>(r: Rep<K, V>, i: nat, v: V)
    requires RepOk(r) && i < |r.order| && r.order[i] < |r.entries| && r.entries[r.order[i]].Some?
    ensures var r2 := r.(entries := r.entries[r.order[i] := Some(r.entries[r.order[i]].value.(value := v))]);
            && RepOk(r2) && ItemsOf(r2) == ItemsOf(r)[i := Item(r.keys[i], v)]
            && ListOk(r2.entries, r2.head, r2.tail, r2.order)
  {
    RewriteKeeps(r.entries, r.order, r.freeList, r.order[i], v);
    forall j | 0 <= j < |r.order| && j != i ensures r.order[j] != r.order[i] {
      assert At(r.order, j) != At(r.order, i);
    }
  }

  /** After filling a fresh slot and pushing it to the front under a new key. */
  lemma Inserted<K, V>(r: Rep<K, V>, r2: Rep<K, V>, e: seq<Option<CacheEntry<V>>>, k: K, t: nat, v: V)
    requires RepOk(r) && k !in r.index
    requires Filled(r.entries, e) && t < |e| && e[t].Some? && e[t].value.value == v
    requires Free(e, r2.freeList) && |e| == |r.order| + 1 + |r2.freeList|
    requires SameValues(e, r2.entries) && ListOk(r2.entries, r2.head, r2.tail, r2.order)
    requires r2.order == [t] + r.order && r2.keys == [k] + r.keys && r2.index == r.index[k := t]
    ensures RepOk(r2) && ItemsOf(r2) == [Item(k, v)] + ItemsOf(r) && |r2.entries| == |e|
  {
    IndexCons(r.index, r.order, r.keys, k, t);
    forall j | 0 <= j < |r.order| ensures r2.entries[r.order[j]].value.value == r.entries[r.order[j]].value.value {
      assert e[r.order[j]] == r.entries[r.order[j]];
    }
  }

  lemma Nothing<K, V>(r: Rep<K, V>)
    requires r == Rep(map[], [], [], None, None, [], [])
    ensures RepOk(r) && ItemsOf(r) == []
  {
  }

  class LruCache<K(==), V(0)> {
    var index: map<K, nat>
    var entries: seq<Option<CacheEntry<V>>>
    var freeList: seq<nat>
    var head: Option<nat>
    var tail: Option<nat>
    const capacity: nat
    var size: nat
    var hits: nat
    var misses: nat

    /** Slots from head to tail, and the key stored in each. */
    ghost var order: seq<nat>
    ghost var keys: seq<K>

    ghost function State(): Rep<K, V>
      reads this
    {
      Rep(index, entries, freeList, head, tail, order, keys)
    }

    ghost predicate Valid()
      reads this
    {
      && RepOk(State())
      && 1 <= capacity && |entries| <= capacity
      && size == |order| <= capacity
    }

    /** The recency-ordered pairs this cache stands for. */
    ghost function Contents(): (s: seq<Item<K, V>>)
      reads this
      requires Valid()
      ensures |s| == size
    {
      ItemsOf(State())
    }

    constructor (requested: nat)
      ensures Valid() && Contents() == [] && hits == 0 && misses == 0
      ensures capacity == if requested == 0 then 1 else requested
    {
      capacity := if requested == 0 then 1 else requested;
      index, entries, freeList, head, tail := map[], [], [], None, None;
      size, hits, misses := 0, 0, 0;
      order, keys := [], [];
    }

    method AllocateEntry(value: V) returns (idx: nat)
      requires RepOk(State()) && |entries| <= capacity && |order| < capacity
      modifies this`entries, this`freeList
      ensures ListOk(entries, head, tail, order) && Free(entries, freeList)
      ensures idx < |entries| && entries[idx] == Some(CacheEntry(value, None, None)) && idx !in order
      ensures |entries| == |order| + 1 + |freeList| && |entries| <= capacity
      ensures Filled(old(entries), entries)
    {
      if |freeList| > 0 {
        ghost var last := |freeList| - 1;
        CutDistinct(freeList, last);
        idx := freeList[|freeList| - 1];
        assert Cut(freeList, last) == freeList[..last];
        freeList := freeList[..|freeList| - 1];
        entries := entries[idx := Some(CacheEntry(value, None, None))];
      } else {
        idx := |entries|;
        entries := entries + [Some(CacheEntry(value, None, None))];
      }
      FillKeepsLinks(old(entries), order, entries);
    }

    method AddToFront(idx: nat)
      requires ListOk(entries, head, tail, order)
      requires idx < |entries| && entries[idx].Some? && idx !in order
      modifies this`entries, this`head, this`tail, this`order
      ensures order == [idx] + old(order) && ListOk(entries, head, tail, order)
      ensures SameValues(old(entries), entries)
    {
      entries := SetNext(SetPrev(entries, idx, None), idx, head);
      if head.Some? {
        entries := SetPrev(entries, head.value, Some(idx));
      }
      head := Some(idx);
      if tail.None? {
        tail := Some(idx);
      }
      PushFrontKeepsLinks(old(entries), order, idx, entries);
      order := [idx] + order;
    }

    method RemoveFromList(idx: nat, ghost i: nat)
      requires ListOk(entries, head, tail, order) && i < |order| && order[i] == idx
      modifies this`entries, this`head, this`tail, this`order
      ensures order == Cut(old(order), i) && ListOk(entries, head, tail, order)
      ensures idx < |entries| && idx !in order
      ensures SameValues(old(entries), entries)
    {
      var prev, next := entries[idx].value.prev, entries[idx].value.next;
      assert LinkAt(entries, order, i);
      if prev.Some? {
        entries := SetNext(entries, prev.value, next);
      } else {
        head := next;
      }
      if next.Some? {
        entries := SetPrev(entries, next.value, prev);
      } else {
        tail := prev;
      }
      UnlinkKeepsLinks(old(entries), order, i, entries);
      order := Cut(order, i);
    }

    method MoveToFront(idx: nat, ghost i: nat)
      requires ListOk(entries, head, tail, order) && i < |order| && order[i] == idx
      modifies this`entries, this`head, this`tail, this`order
      ensures order == [idx] + Cut(old(order), i) && ListOk(entries, head, tail, order)
      ensures SameValues(old(entries), entries)
    {
      if head == Some(idx) {
        assert At(order, 0) == At(order, i);
        assert order == [idx] + order[1..];
        return;
      }
      RemoveFromList(idx, i);
      AddToFront(idx);
    }

    method EvictLru() returns (evicted: Option<V>)
      requires Valid()
      modifies this
      ensures Valid() && hits == old(hits) && misses == old(misses)
      ensures old(size) == 0 ==> evicted == None && Contents() == old(Contents())
      ensures old(size) > 0 ==>
                var s := old(Contents());
                Contents() == s[..|s| - 1] && evicted == Some(s[|s| - 1].value)
      ensures index.Keys <= old(index.Keys)
    {
      hide RepOk, ListOk, SlotsOk, Indexed, ItemsOf, SameValues;
      Tail(State());
      if tail.None? {
        return None;
      }
      var t := tail.value;
      ghost var r, last := State(), |order| - 1;
      RemoveFromList(t, last);
      Kept(r.entries, entries, t);
      evicted := Some(entries[t].value.value);
      ghost var e := entries;
      entries := entries[t := None];
      freeList := freeList + [t];
      size := size - 1;
      index := map k | k in index && index[k] != t :: index[k];
      keys := Cut(keys, last);
      Dropped(r, State(), last, e);
      assert Cut(ItemsOf(r), last) == ItemsOf(r)[..last];
    }

    method Get(key: K) returns (r: Option<V>)
      requires Valid()
      modifies this
      ensures Valid()
      ensures Contents() == Apply(capacity, old(Contents()), LruList.Get(key))
      ensures r == Answer(capacity, old(Contents()), LruList.Get(key))
      ensures hits == old(hits) + (if r.Some? then 1 else 0)
      ensures misses == old(misses) + (if r.Some? then 0 else 1)
    {
      hide RepOk, ListOk, SlotsOk, Indexed, ItemsOf, SameValues;
      ghost var i := Locate(State(), key);
      if key !in index {
        misses := misses + 1;
        return None;
      }
      var idx := index[key];
      hits := hits + 1;
      MoveToFront(idx, i);
      keys := [key] + Cut(keys, i);
      Touched(old(State()), State(), i);
      r := Some(entries[idx].value.value);
    }

    /** The part of `Put` that stores a key the cache does not hold. */
    method InsertNew(key: K, value: V)
      requires Valid() && key !in index && size < capacity
      modifies this
      ensures Valid() && hits == old(hits) && misses == old(misses)
      ensures Contents() == [Item(key, value)] + old(Contents())
    {
      hide RepOk, ListOk, SlotsOk, Indexed, ItemsOf, SameValues, Filled, Free;
      ghost var before := State();
      var idx := AllocateEntry(value);
      ghost var e := entries;
      index := index[key := idx];
      AddToFront(idx);
      keys := [key] + keys;
      size := size + 1;
      Inserted(before, State(), e, key, idx, value);
    }

    method Put(key: K, value: V) returns (r: Option<V>)
      requires Valid()
      modifies this
      ensures Valid() && hits == old(hits) && misses == old(misses)
      ensures Contents() == Apply(capacity, old(Contents()), LruList.Put(key, value))
      ensures r == Answer(capacity, old(Contents()), LruList.Put(key, value))
    {
      hide RepOk, ListOk, SlotsOk, Indexed, ItemsOf, SameValues;
      ghost var i := Locate(State(), key);
      if key in index {
        var idx := index[key];
        r := Some(entries[idx].value.value);
        Rewritten(State(), i, value);
        entries := entries[idx := Some(entries[idx].value.(value := value))];
        ghost var changed := State();
        MoveToFront(idx, i);
        keys := [key] + Cut(keys, i);
        Touched(changed, State(), i);
        return;
      }
      r := None;
      if size >= capacity {
        r := EvictLru();
      }
      InsertNew(key, value);
    }

    method Remove(key: K) returns (r: Option<V>)
      requires Valid()
      modifies this
      ensures Valid() && hits == old(hits) && misses == old(misses)
      ensures Contents() == Apply(capacity, old(Contents()), LruList.Remove(key))
      ensures r == Answer(capacity, old(Contents()), LruList.Remove(key))
    {
      hide RepOk, ListOk, SlotsOk, Indexed, ItemsOf, SameValues;
      ghost var i := Locate(State(), key);
      if key !in index {
        return None;
      }
      var idx := index[key];
      index := index - {key};
      RemoveFromList(idx, i);
      r := Some(entries[idx].value.value);
      ghost var e := entries;
      entries := entries[idx := None];
      freeList := freeList + [idx];
      size := size - 1;
      keys := Cut(keys, i);
      Dropped(old(State()), State(), i, e);
    }

    method Clear()
      requires Valid()
      modifies this
      ensures Valid() && Contents() == [] && hits == old(hits) && misses == old(misses)
    {
      hide RepOk, ItemsOf;
      index, entries, freeList, head, tail, size := map[], [], [], None, None, 0;
      order, keys := [], [];
      Nothing(State());
    }
  }

  /** Any run: a cache driven through `ops` holds what the plain recency list holds, in the order of the last uses. */
  method Replay<K(==, !new), V(0)>(requested: nat, ops: seq<Op<K, V>>) returns (c: LruCache<K, V>)
    ensures c.Valid() && c.capacity == if requested == 0 then 1 else requested
    ensures c.Contents() == Run(c.capacity, ops)
    ensures LruTrace.Follows(c.Contents(), LruTrace.Held(c.capacity, ops))
    ensures |c.index| == c.size == |Run(c.capacity, ops)|
    ensures |c.entries| <= c.capacity
  {
    c := new LruCache<K, V>(requested);
    for n := 0 to |ops|
      invariant fresh(c) && c.Valid() && c.capacity == if requested == 0 then 1 else requested
      invariant c.Contents() == Run(c.capacity, ops[..n])
    {
      assert ops[..n + 1][..n] == ops[..n];
      match ops[n] {
        case Get(k) => var _ := c.Get(k);
        case Put(k, v) => var _ := c.Put(k, v);
        case Remove(k) => var _ := c.Remove(k);
        case Clear => c.Clear();
      }
    }
    assert ops[..|ops|] == ops;
    LruTrace.RunFollows(c.capacity, ops);
    IndexedSize(c.index, c.order, c.keys);
  }
}
