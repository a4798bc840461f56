/** The multi-version state: reads, writes, status changes and finalization. */
module Mvcc {
  import opened Common
  import opened Words
  import opened Versions
  import opened Results
  import opened JmtRuns

  type Data = map<StateKey, Chain>
  type Base = map<StateKey, U256>

  const U64_MAX: U64 := 0xFFFF_FFFF_FFFF_FFFF

  function ChainOf(d: Data, k: StateKey): Chain {
    if k in d then d[k] else []
  }

  /** `read`: the visible version, or the base state at version 0. */
  function ReadAt(d: Data, base: Base, k: StateKey, reader: U64): (Option<U256>, U64) {
    match ReadFor(ChainOf(d, k), reader)
    case Some(found) => found
    case None => (Lookup(base, k), 0)
  }

  ghost predicate AllDescending(d: Data) {
    forall k :: k in d ==> Descending(d[k])
  }

  /** A version of `k` that is older than the reader and not aborted. */
  predicate Seen(d: Data, k: StateKey, reader: U64, i: nat) {
    k in d && i < |d[k]| && d[k][i].seqNo < reader && d[k][i].status != Aborted
  }

  /** A read gives the newest version seen, with its number; if none is, the base state's value with number 0. */
  lemma ReadMeans(d: Data, base: Base, k: StateKey, reader: U64)
    requires AllDescending(d)
    ensures var r := ReadAt(d, base, k, reader);
            if forall i: nat :: !Seen(d, k, reader, i) then r == (Lookup(base, k), 0)
            else exists i: nat :: Seen(d, k, reader, i) && r == (d[k][i].value, d[k][i].seqNo) &&
                   forall j: nat :: Seen(d, k, reader, j) ==> d[k][j].seqNo <= d[k][i].seqNo
  {
    var c := ChainOf(d, k);
    forall j | 0 <= j < |c| ensures Visible(c[j], reader) <==> Seen(d, k, reader, j) {
    }
    ReadForGreatest(c, reader);
    hide ReadFor;
    if ReadFor(c, reader).Some? {
      var i: nat :| i < |c| && Visible(c[i], reader) && (c[i].value, c[i].seqNo) == ReadFor(c, reader).value;
      assert Seen(d, k, reader, i);
    }
  }

  function Written(search: SearchFn, d: Data, k: StateKey, writer: U64, value: Option<U256>): Data {
    d[k := Add(search, ChainOf(d, k), Version(writer, value, Pending))]
  }

  /** Marking the chains of `keys`; a key without a chain is skipped. */
  function Marked(d: Data, keys: set<StateKey>, s: U64, status: TxStatus): Data {
    map k | k in d :: if k in keys then Mark(d[k], s, status) else d[k]
  }

  /** The value a key ends up with: what a reader after every transaction sees. */
  function FinalValue(d: Data, base: Base, k: StateKey): Option<U256> {
    ReadAt(d, base, k, U64_MAX).0
  }

  ghost function FinalBase(d: Data, base: Base): Base {
    map k | k in base.Keys + d.Keys && FinalValue(d, base, k).Some? :: FinalValue(d, base, k).value
  }

  lemma FinalBaseLookup(d: Data, base: Base, k: StateKey)
    ensures Lookup(FinalBase(d, base), k) == FinalValue(d, base, k)
  {
  }

  /** Keys whose final value is a value that came from a chain: those that finalize inserts. */
  predicate Flushed(d: Data, k: StateKey) {
    k in d && ReadFor(d[k], U64_MAX).Some? && ReadFor(d[k], U64_MAX).value.0.Some?
  }

  /** The tree insertion that flushing a key makes. */
  ghost function FlushPut(sha: HashFn, d: Data, k: StateKey): Write {
    (PathOf(sha, k), ValueHash(sha, if Flushed(d, k) then ReadFor(d[k], U64_MAX).value.0.value else ZERO))
  }

  /** The tree insertions of a finalize that visits the flushed keys in the given order. */
  ghost function PutsOf(sha: HashFn, d: Data, order: seq<StateKey>): (puts: seq<Write>)
    ensures |puts| == |order| && forall i :: 0 <= i < |order| ==> puts[i] == FlushPut(sha, d, order[i])
  {
    seq(|order|, i requires 0 <= i < |order| => FlushPut(sha, d, order[i]))
  }

  /** `order` visits once each flushed key outside `rest`. */
  ghost predicate Visited(d: Data, order: seq<StateKey>, rest: set<StateKey>) {
    && (forall i :: 0 <= i < |order| ==> Flushed(d, order[i]) && order[i] !in rest)
    && Distinct(order)
    && (forall k :: Flushed(d, k) && k !in rest ==> k in order)
  }

  ghost predicate Visits(d: Data, order: seq<StateKey>) {
    Visited(d, order, {})
  }

  lemma VisitOne(d: Data, order: seq<StateKey>, rest: set<StateKey>, k: StateKey)
    requires Visited(d, order, rest) && k in rest
    ensures Visited(d, if Flushed(d, k) then order + [k] else order, rest - {k})
  {
    var order2 := if Flushed(d, k) then order + [k] else order;
    forall x | Flushed(d, x) && x !in rest - {k} ensures x in order2 {
      if x == k {
        assert order2[|order|] == k;
      }
    }
  }

  /** The base state after flushing one key. */
  function FlushBase(d: Data, base: Base, k: StateKey): Base {
    match ReadFor(ChainOf(d, k), U64_MAX)
    case None => base
    case Some((Some(v), _)) => base[k := v]
    case Some((None, _)) => base - {k}
  }

  /** Keys outside `rest` have been flushed, the others not. */
  ghost predicate Flushing(d: Data, base0: Base, base: Base, rest: set<StateKey>) {
    forall k :: Lookup(base, k) == if k in d && k !in rest then FinalValue(d, base0, k) else Lookup(base0, k)
  }

  lemma FlushOne(d: Data, base0: Base, base: Base, rest: set<StateKey>, k: StateKey)
    requires Flushing(d, base0, base, rest) && k in rest && k in d
    ensures Flushing(d, base0, FlushBase(d, base, k), rest - {k})
  {
    assert Lookup(base, k) == Lookup(base0, k);
  }

  lemma FlushedAll(d: Data, base0: Base, base: Base)
    requires Flushing(d, base0, base, {})
    ensures base == FinalBase(d, base0)
  {
    forall k ensures Lookup(base, k) == Lookup(FinalBase(d, base0), k) {
      FinalBaseLookup(d, base0, k);
    }
    SameLookups(base, FinalBase(d, base0));
  }

  class MultiVersionState {
    const search: SearchFn
    const jmt: JellyfishMerkleTree
    var data: Data
    var base: Base

    ghost predicate Valid()
      reads this, jmt
    {
      SearchOk(search) && AllDescending(data) && jmt.Valid()
    }

    constructor (search: SearchFn, sha: HashFn, initial: Base)
      requires SearchOk(search)
      ensures Valid() && fresh(this) && fresh(jmt)
      ensures data == map[] && base == initial && this.search == search && jmt.sha == sha && jmt.puts == []
    {
      this.search := search;
      jmt := new JellyfishMerkleTree(sha);
      data, base := map[], initial;
    }

    function Read(k: StateKey, reader: U64): (r: (Option<U256>, U64))
      reads this
    {
      ReadAt(data, base, k, reader)
    }

    method ReadTracked(k: StateKey, reader: U64, readSet: ReadSet) returns (value: Option<U256>, after: ReadSet)
      ensures value == Read(k, reader).0 && after == readSet[k := Read(k, reader)]
    {
      var found := Read(k, reader);
      value, after := found.0, readSet[k := found];
    }

    method Write(k: StateKey, writer: U64, value: Option<U256>)
      requires Valid()
      modifies this`data
      ensures Valid() && data == Written(search, old(data), k, writer, value)
    {
      AddDescends(search, ChainOf(data, k), Version(writer, value, Pending));
      data := data[k := Add(search, ChainOf(data, k), Version(writer, value, Pending))];
    }

    method WriteTracked(k: StateKey, writer: U64, value: Option<U256>, writeSet: WriteSet) returns (after: WriteSet)
      requires Valid()
      modifies this`data
      ensures Valid() && data == Written(search, old(data), k, writer, value) && after == writeSet[k := value]
    {
      after := writeSet[k := value];
      Write(k, writer, value);
    }

    /** `commit_write_set` and `abort_write_set`, over the write set's keys in any order. */
    method MarkWriteSet(s: U64, writeSet: WriteSet, status: TxStatus)
      requires Valid()
      modifies this`data
      ensures Valid() && data == Marked(old(data), writeSet.Keys, s, status)
    {
      hide SearchOk, AllDescending, Marked;
      var rest := writeSet.Keys;
      ghost var done: set<StateKey> := {};
      MarkedNone(data, s, status);
      while rest != {}
        invariant Valid() && rest + done == writeSet.Keys && rest !! done
        invariant data == Marked(old(data), done, s, status)
        decreases |rest|
      {
        var k :| k in rest;
        MarkedOne(old(data), done, k, s, status);
        if k in data {
          MarkKeepsOrder(data, k, s, status);
          data := data[k := Mark(data[k], s, status)];
        }
        rest := rest - {k};
        done := done + {k};
      }
    }

    /** One round of finalize: the final value of `k` goes to the base state and the tree. */
    method FlushKey(k: StateKey)
      requires jmt.Valid()
      modifies this`base, jmt
      ensures jmt.Valid() && base == FlushBase(data, old(base), k)
      ensures jmt.puts == if Flushed(data, k) then old(jmt.puts) + [FlushPut(jmt.sha, data, k)] else old(jmt.puts)
    {
      hide PathOf, ValueHash;
      var found := ReadFor(ChainOf(data, k), U64_MAX);
      if found.Some? {
        match found.value.0 {
          case Some(v) =>
            base := base[k := v];
            var _ := jmt.Put(k, v);
          case None =>
            base := base - {k};
        }
      }
    }

    /** Flushes every chain into the base state and the tree, then clears the chains. */
    method Finalize() returns (ghost order: seq<StateKey>)
      requires Valid()
      modifies this, jmt
      ensures Valid() && data == map[] && base == FinalBase(old(data), old(base))
      ensures Visits(old(data), order) && jmt.puts == old(jmt.puts) + PutsOf(jmt.sha, old(data), order)
    {
      hide AllDescending, SearchOk, FlushPut, Flushed, FlushBase, Flushing, Visited, JellyfishMerkleTree.Valid;
      order := [];
      var rest := data.Keys;
      ghost var d, base0 := data, base;
      FlushStart(d, base0);
      while rest != {}
        invariant jmt.Valid() && data == d && rest <= d.Keys
        invariant Flushing(d, base0, base, rest) && Visited(d, order, rest)
        invariant jmt.puts == old(jmt.puts) + PutsOf(jmt.sha, d, order)
        decreases |rest|
      {
        var k :| k in rest;
        VisitOne(d, order, rest, k);
        FlushOne(d, base0, base, rest, k);
        FlushKey(k);
        if Flushed(d, k) {
          order := order + [k];
        }
        rest := rest - {k};
      }
      FlushedAll(d, base0, base);
      data := map[];
      NothingDescends();
    }
  }

  lemma NothingDescends()
    ensures AllDescending(map[])
  {
  }

  lemma FlushStart(d: Data, base: Base)
    ensures Flushing(d, base, base, d.Keys) && Visited(d, [], d.Keys)
  {
  }

  lemma SameLookups<K, V>(a: map<K, V>, b: map<K, V>)
    requires forall k :: Lookup(a, k) == Lookup(b, k)
    ensures a == b
  {
    assert forall k :: (k in a <==> Lookup(a, k).Some?) && (k in b <==> Lookup(b, k).Some?);
    assert a.Keys == b.Keys;
    assert forall k :: k in a ==> Some(a[k]) == Lookup(a, k) == Lookup(b, k) == Some(b[k]);
  }

  lemma MarkKeepsOrder(d: Data, k: StateKey, s: U64, status: TxStatus)
    requires AllDescending(d) && k in d
    ensures AllDescending(d[k := Mark(d[k], s, status)])
  {
    MarkDescends(d[k], s, status);
  }

  lemma MarkedNone(d: Data, s: U64, status: TxStatus)
    ensures Marked(d, {}, s, status) == d
  {
  }

  lemma MarkedOne(d: Data, keys: set<StateKey>, k: StateKey, s: U64, status: TxStatus)
    requires k !in keys
    ensures var m := Marked(d, keys, s, status);
            Marked(d, keys + {k}, s, status) == if k in m then m[k := Mark(m[k], s, status)] else m
  {
  }
}
