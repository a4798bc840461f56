/** Read sets, write sets and execution results. */
module Results {
  import opened Common
  import opened Words

  /** Key to the value read and the version it came from. */
  type ReadSet = map<StateKey, (Option<U256>, U64)>

  /** Key to the last value written; `None` deletes. */
  type WriteSet = map<StateKey, Option<U256>>

  datatype ExecutionStatus = Success | Revert | Failure

  datatype VmError = InsufficientBalance | InvalidNonce(expected: U64, got: U64)

  /** Return data, or the error whose message is returned. */
  datatype Output = Bytes(data: seq<Byte>) | Error(error: VmError)

  datatype ExecutionResult = ExecutionResult(
    txSeq: U64, status: ExecutionStatus, readSet: ReadSet, writeSet: WriteSet, gasUsed: U64, output: Output)
}

/** Last-writer validation of a batch. */
module Conflict {
  import opened Common
  import opened Words
  import opened Sorting
  import opened Results

  type LastWriters = map<StateKey, U64>

  /** A key was read from a version older than its recorded writer. */
  ghost predicate StaleAt(table: LastWriters, seqNo: U64, readSet: ReadSet, k: StateKey) {
    k in readSet && k in table && readSet[k].1 < table[k] < seqNo
  }

  ghost predicate Stale(table: LastWriters, seqNo: U64, readSet: ReadSet) {
    exists k :: StaleAt(table, seqNo, readSet, k)
  }

  function Record(table: LastWriters, seqNo: U64, keys: set<StateKey>): LastWriters {
    table + map k | k in keys :: seqNo
  }

  class ConflictDetector {
    var committedWrites: LastWriters

    constructor ()
      ensures committedWrites == map[]
    {
      committedWrites := map[];
    }

    method HasConflict(seqNo: U64, readSet: ReadSet) returns (r: bool)
      ensures r <==> Stale(committedWrites, seqNo, readSet)
    {
      var rest := readSet.Keys;
      while rest != {}
        invariant rest <= readSet.Keys
        invariant forall k :: StaleAt(committedWrites, seqNo, readSet, k) ==> k in rest
        decreases |rest|
      {
        var k :| k in rest;
        if k in committedWrites && committedWrites[k] > readSet[k].1 && committedWrites[k] < seqNo {
          assert StaleAt(committedWrites, seqNo, readSet, k);
          return true;
        }
        rest := rest - {k};
      }
      return false;
    }

    method RecordCommit(seqNo: U64, writes: WriteSet)
      modifies this
      ensures committedWrites == Record(old(committedWrites), seqNo, writes.Keys)
    {
      hide Record;
      var rest := writes.Keys;
      ghost var done: set<StateKey> := {};
      RecordNone(committedWrites, seqNo);
      while rest != {}
        invariant rest + done == writes.Keys
        invariant committedWrites == Record(old(committedWrites), seqNo, done)
        decreases |rest|
      {
        var k :| k in rest;
        RecordOne(old(committedWrites), seqNo, done, k);
        committedWrites := committedWrites[k := seqNo];
        rest := rest - {k};
        done := done + {k};
      }
    }
  }

  lemma RecordNone(table: LastWriters, seqNo: U64)
    ensures Record(table, seqNo, {}) == table
  {
  }

  lemma RecordOne(table: LastWriters, seqNo: U64, keys: set<StateKey>, k: StateKey)
    ensures Record(table, seqNo, keys + {k}) == Record(table, seqNo, keys)[k := seqNo]
  {
  }

  // ---------------------------------------------------------------- validation in sequence order

  datatype Verdict = Verdict(committed: seq<U64>, aborted: seq<U64>, table: LastWriters)

  ghost function Judge(v: Verdict, r: ExecutionResult): Verdict {
    if Stale(v.table, r.txSeq, r.readSet) then v.(aborted := v.aborted + [r.txSeq])
    else Verdict(v.committed + [r.txSeq], v.aborted, Record(v.table, r.txSeq, r.writeSet.Keys))
  }

  ghost function Validate(rs: seq<ExecutionResult>): Verdict {
    if rs == [] then Verdict([], [], map[]) else Judge(Validate(rs[..|rs| - 1]), rs[|rs| - 1])
  }

  predicate SeqLeq(a: ExecutionResult, b: ExecutionResult) {
    a.txSeq <= b.txSeq
  }

  method ValidateBatch(results: seq<ExecutionResult>) returns (committed: seq<U64>, aborted: seq<U64>)
    ensures committed == Validate(Sort(SeqLeq, results)).committed
    ensures aborted == Validate(Sort(SeqLeq, results)).aborted
  {
    var detector := new ConflictDetector();
    committed, aborted := [], [];
    var sorted := Sort(SeqLeq, results);
    hide Sort;
    for i := 0 to |sorted|
      invariant fresh(detector)
      invariant Verdict(committed, aborted, detector.committedWrites) == Validate(sorted[..i])
    {
      assert sorted[..i + 1][..i] == sorted[..i];
      var conflict := detector.HasConflict(sorted[i].txSeq, sorted[i].readSet);
      if conflict {
        aborted := aborted + [sorted[i].txSeq];
      } else {
        detector.RecordCommit(sorted[i].txSeq, sorted[i].writeSet);
        committed := committed + [sorted[i].txSeq];
      }
    }
    assert sorted[..|sorted|] == sorted;
  }

  // ---------------------------------------------------------------- what validation means

  ghost predicate Ascending(rs: seq<ExecutionResult>) {
    forall i, j :: 0 <= i < j < |rs| ==> rs[i].txSeq < rs[j].txSeq
  }

  ghost predicate Newest(rs: seq<ExecutionResult>, r: ExecutionResult) {
    forall i :: 0 <= i < |rs| ==> rs[i].txSeq < r.txSeq
  }

  /** `s` wrote something that `r` read from an older version. */
  ghost predicate Overwrites(s: ExecutionResult, r: ExecutionResult) {
    s.txSeq < r.txSeq && exists k :: k in r.readSet && k in s.writeSet && r.readSet[k].1 < s.txSeq
  }

  /** The committed result `s` wrote `k`. */
  ghost predicate Wrote(rs: seq<ExecutionResult>, v: Verdict, k: StateKey, s: U64) {
    exists i :: 0 <= i < |rs| && rs[i].txSeq == s && s in v.committed && k in rs[i].writeSet
  }

  /** The table holds, per key, the greatest committed writer. */
  ghost predicate LastWriterTable(rs: seq<ExecutionResult>, v: Verdict) {
    && (forall k :: k in v.table ==> Wrote(rs, v, k, v.table[k]))
    && (forall k, s: U64 :: Wrote(rs, v, k, s) ==> k in v.table && s <= v.table[k])
  }

  ghost predicate Partitioned(rs: seq<ExecutionResult>, v: Verdict) {
    && (forall i :: 0 <= i < |rs| ==> (rs[i].txSeq in v.committed) != (rs[i].txSeq in v.aborted))
    && (forall s :: s in v.committed || s in v.aborted ==> exists i :: 0 <= i < |rs| && rs[i].txSeq == s)
    && |v.committed| + |v.aborted| == |rs|
  }

  /** Some committed result overwrote a read of result `i`. */
  ghost predicate Blamed(rs: seq<ExecutionResult>, v: Verdict, i: nat)
    requires i < |rs|
  {
    exists j :: 0 <= j < |rs| && rs[j].txSeq in v.committed && Overwrites(rs[j], rs[i])
  }

  /** Exactly the results with a stale read of a committed write are aborted. */
  ghost predicate Correct(rs: seq<ExecutionResult>, v: Verdict) {
    forall i {:trigger Blamed(rs, v, i)} :: 0 <= i < |rs| ==> (rs[i].txSeq in v.aborted <==> Blamed(rs, v, i))
  }

  /** One last-writer entry per key suffices. */
  lemma StaleMeansOverwritten(rs: seq<ExecutionResult>, v: Verdict, r: ExecutionResult)
    requires LastWriterTable(rs, v) && Newest(rs, r)
    ensures Stale(v.table, r.txSeq, r.readSet) <==>
            exists j :: 0 <= j < |rs| && rs[j].txSeq in v.committed && Overwrites(rs[j], r)
  {
    if Stale(v.table, r.txSeq, r.readSet) {
      var k :| StaleAt(v.table, r.txSeq, r.readSet, k);
      assert Wrote(rs, v, k, v.table[k]);
      var i :| 0 <= i < |rs| && rs[i].txSeq == v.table[k] && v.table[k] in v.committed && k in rs[i].writeSet;
      assert Overwrites(rs[i], r);
    }
    if j :| 0 <= j < |rs| && rs[j].txSeq in v.committed && Overwrites(rs[j], r) {
      var k :| k in r.readSet && k in rs[j].writeSet && r.readSet[k].1 < rs[j].txSeq;
      assert Wrote(rs, v, k, rs[j].txSeq) && Wrote(rs, v, k, v.table[k]);
      assert StaleAt(v.table, r.txSeq, r.readSet, k);
    }
  }

  lemma {:induction false} ValidateKeeps(rs: seq<ExecutionResult>)
    requires Ascending(rs)
    ensures LastWriterTable(rs, Validate(rs)) && Partitioned(rs, Validate(rs)) && Correct(rs, Validate(rs))
  {
    hide Validate, Stale, LastWriterTable, Partitioned, Correct;
    if rs == [] {
      ValidateNothing();
    } else {
      var n := |rs| - 1;
      var rest, r := rs[..n], rs[n];
      assert rs == rest + [r];
      assert Newest(rest, r) && Ascending(rest);
      hide Newest, Ascending;
      ValidateKeeps(rest);
      StaleMeansOverwritten(rest, Validate(rest), r);
      JudgeKeepsPartition(rest, Validate(rest), r);
      JudgeKeepsTable(rest, Validate(rest), r);
      JudgeKeepsCorrect(rest, Validate(rest), r);
      ValidateUnfolds(rs);
    }
  }

  lemma ValidateNothing()
    ensures LastWriterTable([], Validate([])) && Partitioned([], Validate([])) && Correct([], Validate([]))
  {
  }

  lemma ValidateUnfolds(rs: seq<ExecutionResult>)
    requires rs != []
    ensures Validate(rs) == Judge(Validate(rs[..|rs| - 1]), rs[|rs| - 1])
  {
  }

  lemma JudgeKeepsPartition(rest: seq<ExecutionResult>, v: Verdict, r: ExecutionResult)
    requires Partitioned(rest, v) && Newest(rest, r)
    ensures Partitioned(rest + [r], Judge(v, r))
  {
    hide Stale;
    var rs, v2 := rest + [r], Judge(v, r);
    assert forall i :: 0 <= i < |rest| ==> rs[i] == rest[i] && rest[i].txSeq < r.txSeq;
    assert rs[|rest|] == r;
    forall s | s in v2.committed || s in v2.aborted ensures exists i :: 0 <= i < |rs| && rs[i].txSeq == s {
      if s != r.txSeq {
        var i :| 0 <= i < |rest| && rest[i].txSeq == s;
        assert rs[i].txSeq == s;
      }
    }
    assert r.txSeq !in v.committed && r.txSeq !in v.aborted;
  }

  lemma WroteAfter(rest: seq<ExecutionResult>, v: Verdict, r: ExecutionResult, k: StateKey, s: U64)
    requires Partitioned(rest, v) && Newest(rest, r)
    ensures Wrote(rest + [r], Judge(v, r), k, s) <==>
            Wrote(rest, v, k, s) || (s == r.txSeq && !Stale(v.table, r.txSeq, r.readSet) && k in r.writeSet)
  {
    hide Stale;
    var rs, v2 := rest + [r], Judge(v, r);
    assert r.txSeq !in v.committed;
    if Wrote(rest, v, k, s) {
      var i :| 0 <= i < |rest| && rest[i].txSeq == s && s in v.committed && k in rest[i].writeSet;
      assert rs[i] == rest[i];
    }
    assert rs[|rest|] == r;
  }

  lemma JudgeKeepsTable(rest: seq<ExecutionResult>, v: Verdict, r: ExecutionResult)
    requires Partitioned(rest, v) && LastWriterTable(rest, v) && Newest(rest, r)
    ensures LastWriterTable(rest + [r], Judge(v, r))
  {
    forall k, s: U64 ensures Wrote(rest + [r], Judge(v, r), k, s) <==>
        Wrote(rest, v, k, s) || (s == r.txSeq && !Stale(v.table, r.txSeq, r.readSet) && k in r.writeSet)
    {
      WroteAfter(rest, v, r, k, s);
    }
    forall k, s: U64 | Wrote(rest, v, k, s) ensures s < r.txSeq {
    }
    hide Stale, Wrote, Partitioned, Newest;
  }

  lemma JudgeKeepsCorrect(rest: seq<ExecutionResult>, v: Verdict, r: ExecutionResult)
    requires Partitioned(rest, v) && Correct(rest, v) && Newest(rest, r)
    requires Stale(v.table, r.txSeq, r.readSet) <==>
             exists j :: 0 <= j < |rest| && rest[j].txSeq in v.committed && Overwrites(rest[j], r)
    ensures Correct(rest + [r], Judge(v, r))
  {
    hide Stale, Overwrites;
    var rs, v2 := rest + [r], Judge(v, r);
    assert forall i :: 0 <= i < |rest| ==> rs[i] == rest[i] && rest[i].txSeq < r.txSeq;
    assert rs[|rest|] == r && r.txSeq !in v.committed && r.txSeq !in v.aborted;
    forall i | 0 <= i < |rs| ensures rs[i].txSeq in v2.aborted <==> Blamed(rs, v2, i) {
      assert i < |rest| ==> (rest[i].txSeq in v.aborted <==> Blamed(rest, v, i));
      LaterNeverOverwrites(r, rs[i]);
      if j :| 0 <= j < |rs| && rs[j].txSeq in v2.committed && Overwrites(rs[j], rs[i]) {
        assert j < |rest|;
        assert rest[j].txSeq in v.committed;
      }
      if i < |rest| && rest[i].txSeq in v.aborted {
        var j :| 0 <= j < |rest| && rest[j].txSeq in v.committed && Overwrites(rest[j], rest[i]);
        assert rs[j].txSeq in v2.committed && Overwrites(rs[j], rs[i]);
      }
      if i == |rest| && Stale(v.table, r.txSeq, r.readSet) {
        var j :| 0 <= j < |rest| && rest[j].txSeq in v.committed && Overwrites(rest[j], r);
        assert rs[j].txSeq in v2.committed && Overwrites(rs[j], rs[i]);
      }
    }
  }

  lemma LaterNeverOverwrites(s: ExecutionResult, r: ExecutionResult)
    requires s.txSeq >= r.txSeq
    ensures !Overwrites(s, r)
  {
  }

  ghost predicate DistinctSeqs(rs: seq<ExecutionResult>) {
    forall i, j :: 0 <= i < j < |rs| ==> rs[i].txSeq != rs[j].txSeq
  }

  lemma SeqLeqOrders()
    ensures TotalPreorder(SeqLeq)
  {
  }

  lemma SortedAscends(rs: seq<ExecutionResult>)
    requires DistinctSeqs(rs)
    ensures Ascending(Sort(SeqLeq, rs)) && multiset(Sort(SeqLeq, rs)) == multiset(rs)
  {
    SeqLeqOrders();
    SortSorts(SeqLeq, rs);
    var s := Sort(SeqLeq, rs);
    hide Sort;
    forall i, j | 0 <= i < j < |s| ensures s[i].txSeq < s[j].txSeq {
      if s[i].txSeq == s[j].txSeq {
        SameSeqOnce(rs, s, i, j);
      }
    }
  }

  lemma OccursOnce(rs: seq<ExecutionResult>, a: nat)
    requires DistinctSeqs(rs) && a < |rs|
    ensures multiset(rs)[rs[a]] == 1
  {
    assert rs == rs[..a] + [rs[a]] + rs[a + 1..];
    assert rs[a] !in rs[..a] && rs[a] !in rs[a + 1..];
  }

  lemma SameSeqOnce(rs: seq<ExecutionResult>, s: seq<ExecutionResult>, i: nat, j: nat)
    requires DistinctSeqs(rs) && multiset(s) == multiset(rs) && i < j < |s|
    ensures s[i].txSeq != s[j].txSeq
  {
    assert s[i] in multiset(rs) && s[j] in multiset(rs);
    var a :| 0 <= a < |rs| && rs[a] == s[i];
    var b :| 0 <= b < |rs| && rs[b] == s[j];
    OccursOnce(rs, a);
    if s[i] == s[j] {
      OccursTwice(s, i, j);
    }
  }

  /** Validation aborts a result exactly when it read, from an older version, a key that a committed
      earlier result wrote; every result is committed or aborted, never both. */
  lemma ValidationMeans(results: seq<ExecutionResult>, r: ExecutionResult)
    requires DistinctSeqs(results) && r in results
    ensures var v := Validate(Sort(SeqLeq, results));
            && (r.txSeq in v.aborted <==>
                  exists s :: s in results && s.txSeq in v.committed && Overwrites(s, r))
            && (r.txSeq in v.committed) != (r.txSeq in v.aborted)
            && |v.committed| + |v.aborted| == |results|
  {
    hide Sort, Validate, Overwrites, LastWriterTable, Partitioned, Correct, DistinctSeqs, Ascending;
    var s := Sort(SeqLeq, results);
    var v := Validate(s);
    SortedAscends(results);
    assert |multiset(s)| == |s| && |multiset(results)| == |results|;
    ValidateKeeps(s);
    assert r in multiset(s);
    var i :| 0 <= i < |s| && s[i] == r;
    VerdictAt(s, v, i);
    forall x ensures x in s <==> x in results {
      assert x in s <==> x in multiset(s);
      assert x in results <==> x in multiset(results);
    }
  }

  lemma VerdictAt(rs: seq<ExecutionResult>, v: Verdict, i: nat)
    requires Partitioned(rs, v) && Correct(rs, v) && i < |rs|
    ensures rs[i].txSeq in v.aborted <==> exists s :: s in rs && s.txSeq in v.committed && Overwrites(s, rs[i])
    ensures (rs[i].txSeq in v.committed) != (rs[i].txSeq in v.aborted)
    ensures |v.committed| + |v.aborted| == |rs|
  {
    hide Overwrites;
    assert rs[i].txSeq in v.aborted <==> Blamed(rs, v, i);
    if s :| s in rs && s.txSeq in v.committed && Overwrites(s, rs[i]) {
      var j :| 0 <= j < |rs| && rs[j] == s;
      assert rs[j].txSeq in v.committed && Overwrites(rs[j], rs[i]);
    }
  }

  /** The order in which the results arrive does not matter. */
  lemma ArrivalOrderIrrelevant(a: seq<ExecutionResult>, b: seq<ExecutionResult>)
    requires DistinctSeqs(a) && multiset(a) == multiset(b)
    ensures Sort(SeqLeq, a) == Sort(SeqLeq, b)
  {
    SortedAscends(a);
    SeqLeqOrders();
    SortSorts(SeqLeq, a);
    SortSorts(SeqLeq, b);
    SortedUnique(SeqLeq, Sort(SeqLeq, a), Sort(SeqLeq, b));
  }

  /** The condition pins the verdict down: no other split of the batch satisfies it. */
  lemma {:induction false} VerdictUnique(rs: seq<ExecutionResult>, v: Verdict, w: Verdict, i: nat)
    requires Ascending(rs) && Partitioned(rs, v) && Correct(rs, v) && Partitioned(rs, w) && Correct(rs, w)
    requires i < |rs|
    ensures rs[i].txSeq in v.aborted <==> rs[i].txSeq in w.aborted
    decreases i
  {
    hide Ascending, Partitioned, Correct;
    forall j | 0 <= j < i ensures rs[j].txSeq in v.aborted <==> rs[j].txSeq in w.aborted {
      VerdictUnique(rs, v, w, j);
    }
    SameAbove(rs, v, w, i);
    SameAbove(rs, w, v, i);
  }

  lemma SameAbove(rs: seq<ExecutionResult>, v: Verdict, w: Verdict, i: nat)
    requires Ascending(rs) && Partitioned(rs, v) && Correct(rs, v) && Partitioned(rs, w) && Correct(rs, w)
    requires i < |rs| && forall j :: 0 <= j < i ==> (rs[j].txSeq in v.aborted <==> rs[j].txSeq in w.aborted)
    ensures rs[i].txSeq in v.aborted ==> rs[i].txSeq in w.aborted
  {
    if rs[i].txSeq in v.aborted {
      assert Blamed(rs, v, i);
      var j :| 0 <= j < |rs| && rs[j].txSeq in v.committed && Overwrites(rs[j], rs[i]);
      assert j < i;
      assert rs[j].txSeq in w.committed;
      assert Blamed(rs, w, i);
    }
  }
}
