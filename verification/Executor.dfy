/** Batch execution: speculate in order, validate, retry what aborted. */
module Executor {
  import opened Common
  import opened Words
  import opened Sorting
  import opened Versions
  import opened Results
  import opened Conflict
  import opened Mvcc
  import opened Vm
  import opened Serial

  type TxMap = map<U64, Tx>

  /** Later transactions replace earlier ones with the same sequence number. */
  function MapOf(txs: seq<Tx>): TxMap {
    if txs == [] then map[] else MapOf(txs[..|txs| - 1])[txs[|txs| - 1].seqNo := txs[|txs| - 1]]
  }

  lemma {:induction false} MapOfKeys(txs: seq<Tx>, s: U64)
    ensures s in MapOf(txs) ==> MapOf(txs)[s].seqNo == s && MapOf(txs)[s] in txs
  {
    if txs != [] {
      MapOfKeys(txs[..|txs| - 1], s);
    }
  }

  /** Under every sequence number that occurs stands the last transaction with it. */
  lemma {:induction false} MapOfLast(txs: seq<Tx>, i: nat)
    requires i < |txs| && forall j :: i < j < |txs| ==> txs[j].seqNo != txs[i].seqNo
    ensures txs[i].seqNo in MapOf(txs) && MapOf(txs)[txs[i].seqNo] == txs[i]
  {
    var n := |txs| - 1;
    if i < n {
      forall j | i < j < n ensures txs[..n][j].seqNo != txs[..n][i].seqNo {
      }
      MapOfLast(txs[..n], i);
    }
  }

  /** The transactions of the map in sequence order. */
  ghost predicate Lists(txs: seq<Tx>, m: TxMap) {
    && InOrder(txs)
    && (forall i :: 0 <= i < |txs| ==> txs[i].seqNo in m && m[txs[i].seqNo] == txs[i])
    && (forall s :: s in m ==> m[s] in txs)
  }

  predicate NumLeq(a: U64, b: U64) {
    a <= b
  }

  /** `filter_map(|seq| tx_map.get(seq))`. */
  function Pick(m: TxMap, seqs: seq<U64>): seq<Tx> {
    if seqs == [] then [] else
      var before, last := Pick(m, seqs[..|seqs| - 1]), seqs[|seqs| - 1];
      if last in m then before + [m[last]] else before
  }

  // ---------------------------------------------------------------- sorted sequence numbers

  ghost predicate Enumerates(s: seq<U64>, keys: set<U64>) {
    && (forall i, j :: 0 <= i < j < |s| ==> s[i] != s[j])
    && (forall x :: x in s <==> x in keys)
  }

  method Keys(m: TxMap) returns (s: seq<U64>)
    ensures Enumerates(s, m.Keys)
  {
    s := [];
    var rest := m.Keys;
    while rest != {}
      invariant rest <= m.Keys
      invariant forall i, j :: 0 <= i < j < |s| ==> s[i] != s[j]
      invariant forall i :: 0 <= i < |s| ==> s[i] !in rest
      invariant forall x :: x in s <==> x in m.Keys - rest
      decreases |rest|
    {
      var k :| k in rest;
      s := s + [k];
      rest := rest - {k};
    }
  }

  ghost predicate Increasing(s: seq<U64>) {
    forall i, j :: 0 <= i < j < |s| ==> s[i] < s[j]
  }

  lemma TailIncreasing(s: seq<U64>)
    requires Increasing(s) && s != []
    ensures Increasing(s[1..]) && (forall y :: y in s[1..] ==> s[0] < y) &&
            (forall y :: y in s <==> y == s[0] || y in s[1..])
  {
    assert s == [s[0]] + s[1..];
  }

  lemma PushIncreasing(head: U64, rest: seq<U64>)
    requires Increasing(rest) && forall y :: y in rest ==> head < y
    ensures Increasing([head] + rest)
  {
    var t := [head] + rest;
    forall i, j | 0 <= i < j < |t| ensures t[i] < t[j] {
      assert t[j] == rest[j - 1] && rest[j - 1] in rest;
    }
  }

  lemma {:induction false} InsertKeepsDistinct(x: U64, s: seq<U64>)
    requires Increasing(s) && x !in s
    ensures var t := Insert<U64>(NumLeq, x, s);
            Increasing(t) && (forall y :: y in t <==> y == x || y in s)
  {
    hide Increasing;
    if s == [] {
      assert [x] == [x] + s;
      PushIncreasing(x, s);
    } else {
      TailIncreasing(s);
      if NumLeq(x, s[0]) {
        PushIncreasing(x, s);
      } else {
        InsertKeepsDistinct(x, s[1..]);
        PushIncreasing(s[0], Insert<U64>(NumLeq, x, s[1..]));
      }
    }
  }

  lemma {:induction false} SortStrict(s: seq<U64>)
    requires forall i, j :: 0 <= i < j < |s| ==> s[i] != s[j]
    ensures var t := Sort<U64>(NumLeq, s);
            Increasing(t) && (forall x :: x in t <==> x in s)
  {
    if s != [] {
      assert s == [s[0]] + s[1..];
      assert s[0] !in s[1..];
      SortStrict(s[1..]);
      InsertKeepsDistinct(s[0], Sort<U64>(NumLeq, s[1..]));
    }
  }

  /** `tx_map.keys()`, sorted. */
  method SortedKeys(m: TxMap) returns (s: seq<U64>)
    ensures Increasing(s) && forall x :: x in s <==> x in m
  {
    var keys := Keys(m);
    SortStrict(keys);
    s := Sort<U64>(NumLeq, keys);
  }

  lemma {:induction false} PickAll(m: TxMap, seqs: seq<U64>)
    requires forall i :: 0 <= i < |seqs| ==> seqs[i] in m
    ensures |Pick(m, seqs)| == |seqs| && forall i :: 0 <= i < |seqs| ==> Pick(m, seqs)[i] == m[seqs[i]]
  {
    if seqs != [] {
      PickAll(m, seqs[..|seqs| - 1]);
    }
  }

  lemma PickLists(txs: seq<Tx>, seqs: seq<U64>)
    requires Increasing(seqs) && (forall s :: s in seqs <==> s in MapOf(txs))
    ensures Lists(Pick(MapOf(txs), seqs), MapOf(txs))
  {
    hide MapOf, Pick;
    var m := MapOf(txs);
    forall i | 0 <= i < |seqs| ensures seqs[i] in m && m[seqs[i]].seqNo == seqs[i] {
      assert seqs[i] in seqs;
      MapOfKeys(txs, seqs[i]);
    }
    PickAll(m, seqs);
    var picked := Pick(m, seqs);
    forall s | s in m ensures m[s] in picked {
      var i :| 0 <= i < |seqs| && seqs[i] == s;
      assert picked[i] == m[s];
    }
  }

  // ---------------------------------------------------------------- results by sequence number

  type ResultMap = map<U64, ExecutionResult>

  function Collect(rs: seq<ExecutionResult>, into: ResultMap): ResultMap {
    if rs == [] then into else Collect(rs[..|rs| - 1], into)[rs[|rs| - 1].txSeq := rs[|rs| - 1]]
  }

  ghost predicate Keyed(m: ResultMap) {
    forall s :: s in m ==> m[s].txSeq == s
  }

  lemma {:induction false} CollectKeyed(rs: seq<ExecutionResult>, into: ResultMap)
    requires Keyed(into)
    ensures Keyed(Collect(rs, into))
  {
    if rs != [] {
      CollectKeyed(rs[..|rs| - 1], into);
    }
  }

  /** The last result under a sequence number replaces all before it. */
  lemma {:induction false} CollectLast(rs: seq<ExecutionResult>, into: ResultMap, i: nat)
    requires i < |rs| && forall j :: i < j < |rs| ==> rs[j].txSeq != rs[i].txSeq
    ensures Lookup(Collect(rs, into), rs[i].txSeq) == Some(rs[i])
  {
    var n := |rs| - 1;
    if i < n {
      forall j | i < j < n ensures rs[..n][j].txSeq != rs[..n][i].txSeq {
      }
      CollectLast(rs[..n], into, i);
    }
  }

  /** Results of other sequence numbers stay. */
  lemma {:induction false} CollectOthers(rs: seq<ExecutionResult>, into: ResultMap, s: U64)
    requires forall i :: 0 <= i < |rs| ==> rs[i].txSeq != s
    ensures Lookup(Collect(rs, into), s) == Lookup(into, s)
  {
    if rs != [] {
      CollectOthers(rs[..|rs| - 1], into, s);
    }
  }

  lemma {:induction false} CollectHolds(rs: seq<ExecutionResult>)
    requires Ascending(rs)
    ensures forall i :: 0 <= i < |rs| ==> rs[i].txSeq in Collect(rs, map[]) && Collect(rs, map[])[rs[i].txSeq] == rs[i]
    ensures forall s :: s in Collect(rs, map[]) ==> Collect(rs, map[])[s] in rs
  {
    if rs != [] {
      var rest := rs[..|rs| - 1];
      CollectHolds(rest);
      assert forall i :: 0 <= i < |rest| ==> rest[i] == rs[i] && rs[i].txSeq < rs[|rs| - 1].txSeq;
    }
  }

  /** The map's values in some order. */
  ghost predicate ListsResults(rs: seq<ExecutionResult>, m: ResultMap) {
    && DistinctSeqs(rs)
    && (forall i :: 0 <= i < |rs| ==> rs[i].txSeq in m && m[rs[i].txSeq] == rs[i])
    && (forall s :: s in m ==> m[s] in rs)
  }

  method AllResults(m: ResultMap) returns (rs: seq<ExecutionResult>)
    requires Keyed(m)
    ensures ListsResults(rs, m)
  {
    rs := [];
    var rest := m.Keys;
    while rest != {}
      invariant rest <= m.Keys && DistinctSeqs(rs)
      invariant forall i :: 0 <= i < |rs| ==> rs[i].txSeq in m.Keys - rest && m[rs[i].txSeq] == rs[i]
      invariant forall s :: s in m.Keys - rest ==> m[s] in rs
      decreases |rest|
    {
      var k :| k in rest;
      rs := rs + [m[k]];
      rest := rest - {k};
    }
  }

  lemma {:induction false} AscendingUnique(a: seq<ExecutionResult>, b: seq<ExecutionResult>)
    requires Ascending(a) && Ascending(b) && forall x :: x in a <==> x in b
    ensures a == b
  {
    assert a != [] ==> a[0] in a;
    assert b != [] ==> b[0] in b;
    if a != [] && b != [] {
      assert a[0] in b && b[0] in a;
      assert a[0] == b[0];
      assert a == [a[0]] + a[1..] && b == [b[0]] + b[1..];
      forall x ensures x in a[1..] <==> x in b[1..] {
        TailMembers(a, x);
        TailMembers(b, x);
      }
      AscendingUnique(a[1..], b[1..]);
    }
  }

  lemma TailMembers(a: seq<ExecutionResult>, x: ExecutionResult)
    requires Ascending(a) && a != []
    ensures x in a[1..] <==> x in a && x != a[0]
  {
    if x in a && x != a[0] {
      var i :| 0 <= i < |a| && a[i] == x;
      assert a[1..][i - 1] == x;
    }
    if x in a[1..] {
      var i :| 0 <= i < |a[1..]| && a[1..][i] == x;
      assert a[i + 1] == x;
    }
  }

  /** Sorting any listing of the collected results gives them back in order. */
  lemma SortedValues(rs: seq<ExecutionResult>, all: seq<ExecutionResult>)
    requires Ascending(rs) && ListsResults(all, Collect(rs, map[]))
    ensures Sort(SeqLeq, all) == rs
  {
    SortedAscends(all);
    CollectHolds(rs);
    var s, m := Sort(SeqLeq, all), Collect(rs, map[]);
    hide Sort, Collect;
    forall x ensures x in s <==> x in rs {
      assert x in s <==> x in multiset(s);
      assert x in all <==> x in multiset(all);
      if x in all {
        var i :| 0 <= i < |all| && all[i] == x;
        assert m[all[i].txSeq] == x;
      }
      if x in rs {
        var i :| 0 <= i < |rs| && rs[i] == x;
        assert m[rs[i].txSeq] == x;
      }
    }
    AscendingUnique(s, rs);
  }

  // ---------------------------------------------------------------- the executor

  function SeqsOf(rs: seq<ExecutionResult>): (seqs: seq<U64>)
    ensures |seqs| == |rs| && forall i :: 0 <= i < |rs| ==> seqs[i] == rs[i].txSeq
  {
    seq(|rs|, i requires 0 <= i < |rs| => rs[i].txSeq)
  }

  /** The chains after committing the write sets of the results one by one. */
  function CommitAll(d: Data, rs: seq<ExecutionResult>): Data {
    if rs == [] then d else
      var last := rs[|rs| - 1];
      Marked(CommitAll(d, rs[..|rs| - 1]), last.writeSet.Keys, last.txSeq, Committed)
  }

  /** The same by sequence number, skipping numbers without a result. */
  function CommitSeqs(d: Data, seqs: seq<U64>, m: ResultMap): Data {
    if seqs == [] then d else
      var before, last := CommitSeqs(d, seqs[..|seqs| - 1], m), seqs[|seqs| - 1];
      if last in m then Marked(before, m[last].writeSet.Keys, last, Committed) else before
  }

  /** The chains after aborting, once each, the write sets of the numbers that have a result. */
  function AbortSeqs(d: Data, seqs: seq<U64>, m: ResultMap): Data {
    if seqs == [] then d else
      var before, last := AbortSeqs(d, seqs[..|seqs| - 1], m), seqs[|seqs| - 1];
      if last in m && last !in seqs[..|seqs| - 1] then Marked(before, m[last].writeSet.Keys, last, Aborted) else before
  }

  /** The version is the first of its number, which is listed and has `k` in its result's write set. */
  predicate Listed(c: Chain, j: nat, seqs: seq<U64>, m: ResultMap, k: StateKey)
    requires j < |c|
  {
    c[j].seqNo in seqs && c[j].seqNo in m && k in m[c[j].seqNo].writeSet && FirstOf(c, j)
  }

  /** Committing marks exactly the listed versions and leaves values, numbers and all other versions alone. */
  lemma {:induction false} CommitsListed(d: Data, seqs: seq<U64>, m: ResultMap, k: StateKey, j: nat)
    requires k in d && j < |d[k]|
    ensures var d2 := CommitSeqs(d, seqs, m);
            && k in d2 && |d2[k]| == |d[k]| && (FirstOf(d2[k], j) <==> FirstOf(d[k], j))
            && d2[k][j] == if Listed(d[k], j, seqs, m, k) then d[k][j].(status := Committed) else d[k][j]
  {
    if seqs != [] {
      var n := |seqs| - 1;
      CommitsListed(d, seqs[..n], m, k, j);
      MarkPoint(CommitSeqs(d, seqs[..n], m)[k], seqs[n], Committed, j);
      assert seqs == seqs[..n] + [seqs[n]];
    }
  }

  /** Aborting does the same. */
  lemma {:induction false} AbortsListed(d: Data, seqs: seq<U64>, m: ResultMap, k: StateKey, j: nat)
    requires k in d && j < |d[k]|
    ensures var d2 := AbortSeqs(d, seqs, m);
            && k in d2 && |d2[k]| == |d[k]| && (FirstOf(d2[k], j) <==> FirstOf(d[k], j))
            && d2[k][j] == if Listed(d[k], j, seqs, m, k) then d[k][j].(status := Aborted) else d[k][j]
  {
    if seqs != [] {
      var n := |seqs| - 1;
      AbortsListed(d, seqs[..n], m, k, j);
      MarkPoint(AbortSeqs(d, seqs[..n], m)[k], seqs[n], Aborted, j);
      assert seqs == seqs[..n] + [seqs[n]];
    }
  }

  lemma {:induction false} CommitSeqsAll(d: Data, rs: seq<ExecutionResult>, m: ResultMap)
    requires forall i :: 0 <= i < |rs| ==> rs[i].txSeq in m && m[rs[i].txSeq] == rs[i]
    ensures CommitSeqs(d, SeqsOf(rs), m) == CommitAll(d, rs)
  {
    hide Marked;
    if rs != [] {
      var rest := rs[..|rs| - 1];
      CommitSeqsAll(d, rest, m);
      assert SeqsOf(rs)[..|rs| - 1] == SeqsOf(rest);
    }
  }

  /** Validation that aborts nothing commits every result in order. */
  lemma {:induction false} CommitsInOrder(rs: seq<ExecutionResult>)
    requires Validate(rs).aborted == []
    ensures Validate(rs).committed == SeqsOf(rs)
  {
    hide Stale;
    if rs != [] {
      var rest := rs[..|rs| - 1];
      ValidateUnfolds(rs);
      CommitsInOrder(rest);
      assert SeqsOf(rs) == SeqsOf(rest) + [rs[|rs| - 1].txSeq];
    }
  }

  /** The results and chains of one in-order pass with everything committed. */
  ghost predicate Finished(search: SearchFn, e: Setting, base: Base, txs: seq<Tx>, results: ResultMap, d: Data) {
    var rs := PassResults(search, e, map[], base, txs);
    results == Collect(rs, map[]) && d == CommitAll(PassData(search, e, map[], base, txs), rs)
  }

  /** The chains stand for the serial state and cover no key outside it. */
  ghost predicate InStep(e: Setting, base: Base, txs: seq<Tx>, d: Data) {
    Synced(d, base, SerialState(e, base, txs), Bound(txs)) && d.Keys <= SerialState(e, base, txs).Keys
  }

  lemma {:induction false} CommitAllInStep(e: Setting, base: Base, txs: seq<Tx>, d: Data, rs: seq<ExecutionResult>)
    requires InStep(e, base, txs, d)
    ensures InStep(e, base, txs, CommitAll(d, rs))
  {
    hide InStep, Marked;
    if rs != [] {
      var last := rs[|rs| - 1];
      CommitAllInStep(e, base, txs, d, rs[..|rs| - 1]);
      MarkInStep(e, base, txs, CommitAll(d, rs[..|rs| - 1]), last.writeSet.Keys, last.txSeq);
    }
  }

  /** When the transactions settle, the committed pass stands for the serial state. */
  lemma SettledInStep(search: SearchFn, e: Setting, base: Base, txs: seq<Tx>, rs: seq<ExecutionResult>)
    requires SearchOk(search) && InOrder(txs) && Settles(e, base, txs)
    ensures InStep(e, base, txs, CommitAll(PassData(search, e, map[], base, txs), rs))
  {
    hide SearchOk, InOrder, Settles, Synced, PassData, SerialState, CommitAll;
    PassKeys(search, e, base, txs);
    PassSyncs(search, e, base, txs);
    CommitAllInStep(e, base, txs, PassData(search, e, map[], base, txs), rs);
  }

  lemma MarkKeepsHead(c: Chain, bound: nat, s: U64)
    requires HeadLive(c, bound)
    ensures HeadLive(Mark(c, s, Committed), bound)
    ensures bound <= U64_MAX ==> ReadFor(Mark(c, s, Committed), U64_MAX) == ReadFor(c, U64_MAX)
  {
    var i := MarkAt(c, s, Committed);
    MarkDescends(c, s, Committed);
  }

  /** Committing write sets changes nothing that finalize takes from the chains. */
  lemma {:induction false} CommitKeepsFinal(d: Data, base: Base, bound: nat, rs: seq<ExecutionResult>)
    requires Ordered(d, bound) && bound <= U64_MAX
    ensures Ordered(CommitAll(d, rs), bound) && FinalBase(CommitAll(d, rs), base) == FinalBase(d, base)
  {
    hide HeadLive, ReadFor, Mark;
    if rs != [] {
      var last := rs[|rs| - 1];
      CommitKeepsFinal(d, base, bound, rs[..|rs| - 1]);
      MarkedKeepsFinal(CommitAll(d, rs[..|rs| - 1]), base, bound, last.writeSet.Keys, last.txSeq);
    }
  }

  lemma MarkedKeepsFinal(d: Data, base: Base, bound: nat, keys: set<StateKey>, s: U64)
    requires Ordered(d, bound) && bound <= U64_MAX
    ensures Ordered(Marked(d, keys, s, Committed), bound)
    ensures FinalBase(Marked(d, keys, s, Committed), base) == FinalBase(d, base)
  {
    hide HeadLive, ReadFor, Mark, FinalBase;
    var d2 := Marked(d, keys, s, Committed);
    forall k ensures HeadLive(ChainOf(d2, k), bound) &&
        Lookup(FinalBase(d2, base), k) == Lookup(FinalBase(d, base), k) {
      assert HeadLive(ChainOf(d, k), bound);
      MarkKeepsHead(ChainOf(d, k), bound, s);
      FinalBaseLookup(d, base, k);
      FinalBaseLookup(d2, base, k);
    }
    SameLookups(FinalBase(d2, base), FinalBase(d, base));
  }

  /** Finalizing the chains a batch of the first `n` transactions leaves gives the serial state. */
  ghost predicate BatchSerial(search: SearchFn, e: Setting, base: Base, txs: seq<Tx>, n: nat)
    requires n <= |txs|
  {
    var rs := PassResults(search, e, map[], base, txs[..n]);
    FinalBase(CommitAll(PassData(search, e, map[], base, txs[..n]), rs), base) == SerialState(e, base, txs[..n])
  }

  /** Executing and finalizing is serial for every leading part of a batch and every admissible search exactly when
      each transaction settles its keys where serial execution runs it. */
  lemma BatchSerialExactly(e: Setting, base: Base, txs: seq<Tx>)
    requires InOrder(txs) && Bound(txs) <= U64_MAX
    ensures (forall search, n :: SearchOk(search) && 0 <= n <= |txs| ==> BatchSerial(search, e, base, txs, n)) <==>
            Settles(e, base, txs)
  {
    hide SearchOk, InOrder, Settles, Ordered, CommitAll, FinalBase, PassData, SerialState;
    SerialExactly(e, base, txs);
    forall search, n | SearchOk(search) && 0 <= n <= |txs|
      ensures BatchSerial(search, e, base, txs, n) <==> SerialUpTo(search, e, base, txs, n)
    {
      BoundMonotone(txs, n);
      PassOrdered(search, e, base, txs[..n]);
      CommitKeepsFinal(PassData(search, e, map[], base, txs[..n]), base, Bound(txs[..n]),
                       PassResults(search, e, map[], base, txs[..n]));
    }
  }

  lemma {:induction false} PassKeys(search: SearchFn, e: Setting, base: Base, txs: seq<Tx>)
    requires SearchOk(search) && InOrder(txs) && Settles(e, base, txs)
    ensures PassData(search, e, map[], base, txs).Keys <= SerialState(e, base, txs).Keys
  {
    hide SearchOk, InOrder, SettlesIn, Synced, PassData, SerialState, Apply, Execute;
    if txs == [] {
      PassStarts(search, e, base);
    } else {
      var n := |txs| - 1;
      OrderBelow(txs, n);
      SettlesBelow(e, base, txs, n);
      assert SettlesAt(e, base, txs, n);
      PassKeys(search, e, base, txs[..n]);
      PassSyncs(search, e, base, txs[..n]);
      var d, s := PassData(search, e, map[], base, txs[..n]), SerialState(e, base, txs[..n]);
      PassStep(search, e, d, base, s, Bound(txs[..n]), txs[n]);
      PassUnfolds(search, e, base, txs);
      SerialUnfolds(e, base, txs);
      ApplyKeys(search, d, s, txs[n].seqNo, SerialOutcome(e, s, txs[n]).writes);
    }
  }

  lemma {:induction false} ApplyKeys(search: SearchFn, d: Data, s: Base, seqNo: U64, writes: seq<WriteOp>)
    requires d.Keys <= s.Keys
    ensures Apply(search, d, seqNo, writes).Keys <= ApplyBase(s, writes).Keys
  {
    if writes != [] {
      ApplyKeys(search, d, s, seqNo, writes[..|writes| - 1]);
    }
  }

  class ParallelExecutor {
    const state: MultiVersionState
    const machine: Machine
    const maxRetries: nat

    constructor (state: MultiVersionState, machine: Machine, maxRetries: nat)
      ensures this.state == state && this.machine == machine && this.maxRetries == maxRetries
    {
      this.state, this.machine, this.maxRetries := state, machine, maxRetries;
    }

    /** Phase 1: every listed transaction, in the listed order, against the shared state. */
    method ExecuteParallel(seqs: seq<U64>, txMap: TxMap, coinbase: Address) returns (rs: seq<ExecutionResult>)
      requires state.Valid()
      modifies state`data
      ensures state.Valid()
      ensures state.data == PassData(state.search, Setting(machine, coinbase), old(state.data), state.base,
              Pick(txMap, seqs))
      ensures rs == PassResults(state.search, Setting(machine, coinbase), old(state.data), state.base,
              Pick(txMap, seqs))
    {
      hide Execute, Apply, MultiVersionState.Valid, ViewAt;
      ghost var e, d, base := Setting(machine, coinbase), state.data, state.base;
      rs := [];
      for i := 0 to |seqs|
        invariant state.Valid() && state.base == base
        invariant state.data == PassData(state.search, e, d, base, Pick(txMap, seqs[..i]))
        invariant rs == PassResults(state.search, e, d, base, Pick(txMap, seqs[..i]))
      {
        assert seqs[..i + 1][..i] == seqs[..i];
        if seqs[i] in txMap {
          ghost var txs := Pick(txMap, seqs[..i]);
          PassExtends(state.search, e, d, base, txs, txMap[seqs[i]]);
          var r := ExecuteTx(machine, txMap[seqs[i]], state, coinbase);
          rs := rs + [r];
        }
      }
      assert seqs[..|seqs|] == seqs;
    }

    /** Marks the committed write sets. */
    method MarkCommitted(committed: seq<U64>, results: ResultMap)
      requires state.Valid()
      modifies state`data
      ensures state.Valid() && state.data == CommitSeqs(old(state.data), committed, results)
    {
      hide MultiVersionState.Valid, Marked;
      for i := 0 to |committed|
        invariant state.Valid() && state.data == CommitSeqs(old(state.data), committed[..i], results)
      {
        assert committed[..i + 1][..i] == committed[..i];
        var c := committed[i];
        if c in results {
          state.MarkWriteSet(c, results[c].writeSet, Committed);
        }
      }
      assert committed[..|committed|] == committed;
    }

    /** Marks the aborted write sets and forgets their results. */
    method DropAborted(aborted: seq<U64>, results: ResultMap) returns (after: ResultMap)
      requires state.Valid() && Keyed(results)
      modifies state`data
      ensures state.Valid() && Keyed(after)
      ensures forall s :: s in after <==> s in results && s !in aborted
      ensures forall s :: s in after ==> after[s] == results[s]
      ensures state.data == AbortSeqs(old(state.data), aborted, results)
    {
      hide MultiVersionState.Valid, Marked;
      after := results;
      for i := 0 to |aborted|
        invariant state.Valid() && Keyed(after)
        invariant forall s :: s in after <==> s in results && s !in aborted[..i]
        invariant forall s :: s in after ==> after[s] == results[s]
        invariant state.data == AbortSeqs(old(state.data), aborted[..i], results)
      {
        assert aborted[..i + 1][..i] == aborted[..i];
        var a := aborted[i];
        if a in after {
          state.MarkWriteSet(a, after[a].writeSet, Aborted);
        }
        after := after - {a};
      }
      assert aborted[..|aborted|] == aborted;
    }

    /** One attempt: speculate, validate in sequence order, commit and abort. */
    method Attempt(pending: seq<U64>, txMap: TxMap, coinbase: Address, results: ResultMap)
      returns (after: ResultMap, aborted: seq<U64>, ghost listed: seq<ExecutionResult>)
      requires state.Valid() && Keyed(results)
      modifies state`data
      ensures state.Valid() && Keyed(after)
      ensures var e, txs := Setting(machine, coinbase), Pick(txMap, pending);
              var d := PassData(state.search, e, old(state.data), state.base, txs);
              var rs := PassResults(state.search, e, old(state.data), state.base, txs);
              Attempted(d, rs, results, listed, state.data, after, aborted)
      ensures var txs := Pick(txMap, pending);
              Quiet(old(state.data), results, txs) ==>
                aborted == [] && Finished(state.search, Setting(machine, coinbase), state.base, txs, after, state.data)
    {
      hide MultiVersionState.Valid, Quiet, Finished, Sort, ListsResults, Validate, PassData, Pick, Collect, Keyed,
           CommitSeqs;
      ghost var e, txs, d0, base := Setting(machine, coinbase), Pick(txMap, pending), state.data, state.base;
      var rs := ExecuteParallel(pending, txMap, coinbase);
      ghost var d1 := state.data;
      after := CollectAll(rs, results);
      ghost var collected := after;
      var all := AllResults(after);
      listed := all;
      var committed;
      committed, aborted := ValidateBatch(all);
      MarkCommitted(committed, after);
      after := DropAborted(aborted, after);
      if Quiet(d0, results, txs) {
        StateSearches(state);
        QuietPass(state.search, e, d0, base, results, txs, all);
        assert after == collected;
      }
    }

    /** A batch: attempts until nothing is pending or the retries run out, then the results in order. */
    method ExecuteBatch(transactions: seq<Tx>, coinbase: Address)
      returns (out: seq<ExecutionResult>, ghost txs: seq<Tx>, ghost trace: seq<Round>)
      requires state.Valid()
      modifies state`data
      ensures state.Valid() && Lists(txs, MapOf(transactions)) && Ascending(out)
      ensures Traces(state.search, Setting(machine, coinbase), state.base, MapOf(transactions), old(state.data),
              maxRetries, trace)
      ensures var last := trace[|trace| - 1];
              state.data == last.data && exists all :: ListsResults(all, last.results) && out == Sort(SeqLeq, all)
      ensures var e := Setting(machine, coinbase);
              old(state.data) == map[] ==>
                && out == PassResults(state.search, e, map[], state.base, txs)
                && state.data == CommitAll(PassData(state.search, e, map[], state.base, txs), out)
    {
      hide MultiVersionState.Valid, Quiet, DistinctSeqs, Ascending, Sort, PassData, Pick, Collect, Keyed, Finished,
           Lists, CommitAll, Attempted, Retries, ListsResults, Increasing;
      ghost var e, d0, base := Setting(machine, coinbase), state.data, state.base;
      var txMap := CollectTxs(transactions);
      var pending := SortedKeys(txMap);
      ghost var first := pending;
      txs := Pick(txMap, pending);
      PickLists(transactions, pending);
      var results: ResultMap := map[];
      EmptyKeyed();
      if d0 == map[] {
        ListedIsQuiet(transactions, txs);
      }
      var attempt := 0;
      trace := [Round(pending, state.data, results)];
      while attempt <= maxRetries && pending != []
        invariant state.Valid() && state.base == base && Keyed(results)
        invariant |trace| == attempt + 1 <= maxRetries + 2 && trace[attempt] == Round(pending, state.data, results)
        invariant trace[0] == Round(first, d0, map[])
        invariant forall i :: 0 <= i < attempt ==>
                    trace[i].pending != [] && Retries(state.search, e, base, txMap, trace[i], trace[i + 1])
        invariant d0 == map[] && attempt == 0 ==> state.data == map[] && results == map[] && Pick(txMap, pending) == txs
        invariant d0 == map[] && attempt > 0 ==>
                  pending == [] && Finished(state.search, e, base, txs, results, state.data)
        decreases maxRetries + 1 - attempt
      {
        ghost var before := trace[attempt];
        ghost var listed;
        results, pending, listed := Attempt(pending, txMap, coinbase, results);
        trace := trace + [Round(pending, state.data, results)];
        RetriesBy(state.search, e, base, txMap, before, trace[attempt + 1], listed);
        attempt := attempt + 1;
      }
      if d0 == map[] && attempt == 0 {
        NothingToDo(state.search, e, base, txMap, txs);
      }
      var all := AllResults(results);
      out := Sort(SeqLeq, all);
      SortedAscends(all);
      if d0 == map[] {
        FinishedSorts(state.search, e, base, txs, results, state.data, all);
      }
    }
  }

  /** What one attempt does: collect, validate the listed results, commit and abort, forget the aborted. */
  ghost predicate Attempted(d: Data, rs: seq<ExecutionResult>, before: ResultMap, listed: seq<ExecutionResult>,
                            d2: Data, after: ResultMap, aborted: seq<U64>)
  {
    var m, v := Collect(rs, before), Validate(Sort(SeqLeq, listed));
    && ListsResults(listed, m) && aborted == v.aborted
    && d2 == AbortSeqs(CommitSeqs(d, v.committed, m), aborted, m)
    && (forall s :: s in after <==> s in m && s !in aborted)
    && (forall s :: s in after ==> after[s] == m[s])
  }

  /** Where the retry loop stands: what is pending, the chains, and the results kept. */
  datatype Round = Round(pending: seq<U64>, data: Data, results: ResultMap)

  /** One attempt takes the loop from `a` to `b`. */
  ghost predicate Retries(search: SearchFn, e: Setting, base: Base, m: TxMap, a: Round, b: Round) {
    var txs := Pick(m, a.pending);
    exists listed :: Attempted(PassData(search, e, a.data, base, txs), PassResults(search, e, a.data, base, txs),
                               a.results, listed, b.data, b.results, b.pending)
  }

  /** The rounds of one batch: from all of it pending, attempt by attempt while something is pending and retries are
      left. */
  ghost predicate Traces(search: SearchFn, e: Setting, base: Base, m: TxMap, d: Data, maxRetries: nat,
                         trace: seq<Round>) {
    && trace != [] && Increasing(trace[0].pending) && (forall s :: s in trace[0].pending <==> s in m)
    && trace[0].data == d && trace[0].results == map[]
    && (forall i :: 0 <= i < |trace| - 1 ==>
          trace[i].pending != [] && Retries(search, e, base, m, trace[i], trace[i + 1]))
    && |trace| <= maxRetries + 2 && (trace[|trace| - 1].pending == [] || |trace| == maxRetries + 2)
  }

  /** Chains start empty, nothing is collected yet, and the listed transactions are in order. */
  ghost predicate Quiet(d: Data, results: ResultMap, txs: seq<Tx>) {
    d == map[] && results == map[] && InOrder(txs)
  }

  /** A quiet pass validates without aborts, whatever its transactions do. */
  lemma QuietPass(search: SearchFn, e: Setting, d: Data, base: Base, results: ResultMap, txs: seq<Tx>,
                  all: seq<ExecutionResult>)
    requires SearchOk(search) && Quiet(d, results, txs)
    requires ListsResults(all, Collect(PassResults(search, e, d, base, txs), results))
    ensures var v, m := Validate(Sort(SeqLeq, all)), Collect(PassResults(search, e, d, base, txs), results);
            && v.aborted == []
            && Finished(search, e, base, txs, m, CommitSeqs(PassData(search, e, d, base, txs), v.committed, m))
  {
    hide SearchOk, InOrder, Sort, ListsResults, PassData, Collect, Ascending, CommitSeqs, CommitAll, Validate;
    var rs := PassResults(search, e, map[], base, txs);
    PassAscends(search, e, base, txs);
    SortedValues(rs, all);
    PassCommits(search, e, base, txs);
    CommitsInOrder(rs);
    CollectHolds(rs);
    CommitSeqsAll(PassData(search, e, map[], base, txs), rs, Collect(rs, map[]));
  }

  lemma PassExtends(search: SearchFn, e: Setting, d: Data, base: Base, txs: seq<Tx>, tx: Tx)
    ensures var out := Execute(e.machine, tx, e.coinbase, ViewAt(PassData(search, e, d, base, txs), base, tx.seqNo));
            && PassData(search, e, d, base, txs + [tx]) ==
                Apply(search, PassData(search, e, d, base, txs), tx.seqNo, out.writes)
            && PassResults(search, e, d, base, txs + [tx]) == PassResults(search, e, d, base, txs) + [out.result]
  {
    hide Execute, Apply, ViewAt;
    var txs2 := txs + [tx];
    assert txs2[..|txs|] == txs;
    forall i | 0 <= i < |txs| ensures PassOutcome(search, e, d, base, txs2, i) ==
        PassOutcome(search, e, d, base, txs, i) {
      assert txs2[..i] == txs[..i];
    }
  }

  method CollectAll(rs: seq<ExecutionResult>, into: ResultMap) returns (m: ResultMap)
    requires Keyed(into)
    ensures m == Collect(rs, into) && Keyed(m)
  {
    m := into;
    for i := 0 to |rs|
      invariant m == Collect(rs[..i], into)
    {
      assert rs[..i + 1][..i] == rs[..i];
      m := m[rs[i].txSeq := rs[i]];
    }
    assert rs[..|rs|] == rs;
    CollectKeyed(rs, into);
  }

  method CollectTxs(txs: seq<Tx>) returns (m: TxMap)
    ensures m == MapOf(txs)
  {
    m := map[];
    for i := 0 to |txs|
      invariant m == MapOf(txs[..i])
    {
      assert txs[..i + 1][..i] == txs[..i];
      m := m[txs[i].seqNo := txs[i]];
    }
    assert txs[..|txs|] == txs;
  }

  lemma MarkInStep(e: Setting, base: Base, txs: seq<Tx>, d: Data, keys: set<StateKey>, seqNo: U64)
    requires InStep(e, base, txs, d)
    ensures InStep(e, base, txs, Marked(d, keys, seqNo, Committed))
  {
    hide Synced;
    MarkSyncs(d, base, SerialState(e, base, txs), Bound(txs), keys, seqNo);
  }

  lemma StateSearches(state: MultiVersionState)
    requires state.Valid()
    ensures SearchOk(state.search)
  {
  }

  lemma RetriesBy(search: SearchFn, e: Setting, base: Base, m: TxMap, a: Round, b: Round, listed: seq<ExecutionResult>)
    requires var txs := Pick(m, a.pending);
             Attempted(PassData(search, e, a.data, base, txs), PassResults(search, e, a.data, base, txs),
                       a.results, listed, b.data, b.results, b.pending)
    ensures Retries(search, e, base, m, a, b)
  {
    hide Attempted, PassData, PassResults, Pick;
  }

  lemma EmptyKeyed()
    ensures Keyed(map[])
  {
  }

  lemma ListedIsQuiet(transactions: seq<Tx>, txs: seq<Tx>)
    requires Lists(txs, MapOf(transactions))
    ensures Quiet(map[], map[], txs)
  {
  }

  lemma NothingToDo(search: SearchFn, e: Setting, base: Base, m: TxMap, txs: seq<Tx>)
    requires txs == Pick(m, [])
    ensures Finished(search, e, base, txs, map[], map[])
  {
    PassStarts(search, e, base);
  }

  lemma FinishedSorts(search: SearchFn, e: Setting, base: Base, txs: seq<Tx>, results: ResultMap, d: Data,
                      all: seq<ExecutionResult>)
    requires Quiet(map[], map[], txs) && Finished(search, e, base, txs, results, d) && ListsResults(all, results)
    ensures Sort(SeqLeq, all) == PassResults(search, e, map[], base, txs)
    ensures d == CommitAll(PassData(search, e, map[], base, txs), Sort(SeqLeq, all))
  {
    hide Sort, Collect, ListsResults, Ascending, CommitAll, PassData;
    PassAscends(search, e, base, txs);
    SortedValues(PassResults(search, e, map[], base, txs), all);
  }
}
