/** Blocks: number, execute, finalize, and the state root after any run of blocks. */
module Blocks {
  import opened Common
  import opened Words
  import opened Versions
  import opened Results
  import opened JmtTree
  import opened Jmt
  import opened JmtRuns
  import opened Mvcc
  import opened Vm
  import opened Serial
  import opened TameTransactions
  import opened Executor
  import opened Authenticated

  datatype Block = Block(round: U64, coinbase: Address, txs: seq<Tx>)

  /** Ten thousand sequence numbers per round, handed out in order. */
  function Numbered(b: Block): (txs: seq<Tx>)
    ensures |txs| == |b.txs|
  {
    seq(|b.txs|, i requires 0 <= i < |b.txs| => b.txs[i].(seqNo := Wrap((b.round as int - 1) * 10000 + i)))
  }

  /** No sequence number wraps or reaches the largest 64-bit number. */
  predicate InRange(b: Block) {
    1 <= b.round && (b.round as int - 1) * 10000 + |b.txs| <= U64_MAX
  }

  /** In range, and each transaction settles its keys where serial execution from `base` runs it. */
  ghost predicate Clean(m: Machine, base: Base, b: Block) {
    InRange(b) && Settles(Setting(m, b.coinbase), base, Numbered(b))
  }

  /** A condition on numbers and addresses alone that makes a block clean from every state. */
  lemma UntangledIsClean(m: Machine, base: Base, b: Block)
    requires InRange(b) && forall i :: 0 <= i < |b.txs| ==> Untangled(Setting(m, b.coinbase), b.txs[i])
    ensures Clean(m, base, b)
  {
    hide Tame, Settles;
    forall i | 0 <= i < |b.txs| ensures Tame(Setting(m, b.coinbase), Numbered(b)[i]) {
      UntangledIsTame(Setting(m, b.coinbase), Numbered(b)[i]);
    }
    TameSettles(Setting(m, b.coinbase), base, Numbered(b));
  }

  /** The reference: one transaction after the other, one block after the other, on a plain map. */
  function SerialBlocks(m: Machine, base: Base, blocks: seq<Block>): Base {
    if blocks == [] then base else
      var last := blocks[|blocks| - 1];
      SerialState(Setting(m, last.coinbase), SerialBlocks(m, base, blocks[..|blocks| - 1]), Numbered(last))
  }

  lemma NumberedInOrder(b: Block)
    requires InRange(b)
    ensures InOrder(Numbered(b)) && Bound(Numbered(b)) <= U64_MAX
    ensures forall i :: 0 <= i < |b.txs| ==> Numbered(b)[i].seqNo == (b.round as int - 1) * 10000 + i
  {
    forall i | 0 <= i < |b.txs| ensures Numbered(b)[i].seqNo == (b.round as int - 1) * 10000 + i {
      WrapSmall((b.round as int - 1) * 10000 + i);
    }
  }

  lemma {:induction false} MapOfInOrder(txs: seq<Tx>, i: nat)
    requires InOrder(txs) && i < |txs|
    ensures txs[i].seqNo in Executor.MapOf(txs) && Executor.MapOf(txs)[txs[i].seqNo] == txs[i]
  {
    var rest := txs[..|txs| - 1];
    if i < |rest| {
      MapOfInOrder(rest, i);
      assert rest[i] == txs[i];
    }
  }

  /** A batch already in order is executed in exactly that order. */
  lemma ListsItself(txs: seq<Tx>, listed: seq<Tx>)
    requires InOrder(txs) && Lists(listed, Executor.MapOf(txs))
    ensures listed == txs
  {
    hide Executor.MapOf;
    forall t ensures t in listed <==> t in txs {
      if i :| 0 <= i < |txs| && txs[i] == t {
        MapOfInOrder(txs, i);
      }
      if t in listed {
        MapOfKeys(txs, t.seqNo);
      }
    }
    InOrderUnique(listed, txs);
  }

  lemma {:induction false} InOrderUnique(a: seq<Tx>, b: seq<Tx>)
    requires InOrder(a) && InOrder(b) && forall t :: t in a <==> t in b
    ensures a == b
  {
    assert a != [] ==> a[0] in a;
    assert b != [] ==> b[0] in b;
    if a != [] && b != [] {
      var x, y := a[|a| - 1], b[|b| - 1];
      assert x in b && y in a;
      assert x == y;
      var a0, b0 := a[..|a| - 1], b[..|b| - 1];
      forall t ensures t in a0 <==> t in b0 {
        InitMembers(a, t);
        InitMembers(b, t);
      }
      InOrderUnique(a0, b0);
    }
  }

  lemma InitMembers(a: seq<Tx>, t: Tx)
    requires InOrder(a) && a != []
    ensures t in a[..|a| - 1] <==> t in a && t != a[|a| - 1]
  {
    assert a == a[..|a| - 1] + [a[|a| - 1]];
  }

  // ---------------------------------------------------------------- the tree mirrors the state

  ghost predicate IsPath(sha: HashFn, base: Base, p: Digest) {
    exists k :: k in base && PathOf(sha, k) == p
  }

  /** The tree's entries are the hashed state: nothing missing, nothing more. */
  ghost predicate Mirrors(sha: HashFn, base: Base, m: Entries) {
    && (forall k :: k in base ==> Lookup(m, PathOf(sha, k)) == Some(ValueHash(sha, base[k])))
    && (forall p :: p in m ==> IsPath(sha, base, p))
  }

  lemma MirrorsAgrees(sha: HashFn, keys: set<StateKey>, base: Base, m: Entries)
    requires PathsApart(sha, keys) && base.Keys <= keys
    requires Mirrors(sha, base, m)
    ensures Agrees(sha, keys, base, m)
  {
    hide PathOf, ValueHash;
    forall k | k in keys ensures Lookup(m, PathOf(sha, k)) == HashedValue(sha, Lookup(base, k)) {
      if k !in base && PathOf(sha, k) in m {
        assert IsPath(sha, base, PathOf(sha, k));
      }
    }
  }

  lemma FlushKeepsPaths(sha: HashFn, base: Base, s: Base, d: Data, puts: seq<JmtRuns.Write>, order: seq<StateKey>,
                        p: Digest)
    requires base.Keys <= s.Keys && d.Keys <= s.Keys && Visits(d, order)
    requires Mirrors(sha, base, JmtRuns.MapOf(puts)) && p in JmtRuns.MapOf(puts + PutsOf(sha, d, order))
    ensures IsPath(sha, s, p)
  {
    hide PathOf, ValueHash;
    var after := PutsOf(sha, d, order);
    MapOfAppend(puts, after);
    if p in JmtRuns.MapOf(after) {
      MapOfEntry(after, p);
      var i :| 0 <= i < |after| && after[i] == (p, JmtRuns.MapOf(after)[p]);
      assert order[i] in s && PathOf(sha, order[i]) == p;
    } else {
      assert IsPath(sha, base, p);
    }
  }

  /** Finalizing chains in step with `s` leaves the tree mirroring `s`. */
  lemma FinalizeMirrors(sha: HashFn, base: Base, s: Base, bound: nat, d: Data, puts: seq<JmtRuns.Write>,
                        order: seq<StateKey>)
    requires Synced(d, base, s, bound) && bound <= U64_MAX
    requires base.Keys <= s.Keys && d.Keys <= s.Keys && Visits(d, order) && PathsApart(sha, s.Keys)
    requires Mirrors(sha, base, JmtRuns.MapOf(puts))
    ensures Mirrors(sha, s, JmtRuns.MapOf(puts + PutsOf(sha, d, order)))
  {
    hide PathsApart, PathOf, ValueHash, PutsOf, Visited, Synced;
    var after := PutsOf(sha, d, order);
    MirrorsAgrees(sha, s.Keys, base, JmtRuns.MapOf(puts));
    FinalizeIsSerial(d, base, s, bound);
    forall k | k in base ensures !Deletes(d, k) {
      FinalBaseLookup(d, base, k);
    }
    FinalizeAgrees(sha, s.Keys, d, base, puts, order);
    forall p | p in JmtRuns.MapOf(puts + after) ensures IsPath(sha, s, p) {
      FlushKeepsPaths(sha, base, s, d, puts, order, p);
    }
  }

  lemma {:induction false} ApplyBaseGrows(s: Base, writes: seq<WriteOp>)
    ensures s.Keys <= ApplyBase(s, writes).Keys
  {
    if writes != [] {
      ApplyBaseGrows(s, writes[..|writes| - 1]);
    }
  }

  /** Transactions never delete a key. */
  lemma {:induction false} SerialGrows(e: Setting, s: Base, txs: seq<Tx>)
    ensures s.Keys <= SerialState(e, s, txs).Keys
  {
    if txs != [] {
      var before := SerialState(e, s, txs[..|txs| - 1]);
      SerialGrows(e, s, txs[..|txs| - 1]);
      ApplyBaseGrows(before, SerialOutcome(e, before, txs[|txs| - 1]).writes);
    }
  }

  /** As long as the hash keeps the state's keys apart, the tree mirrors the state. */
  ghost predicate Mirrored(sha: HashFn, base: Base, puts: seq<JmtRuns.Write>) {
    PathsApart(sha, base.Keys) ==> Mirrors(sha, base, JmtRuns.MapOf(puts))
  }

  lemma FinalizeMirrored(sha: HashFn, e: Setting, base: Base, txs: seq<Tx>, d: Data, puts: seq<JmtRuns.Write>,
                         order: seq<StateKey>)
    requires InStep(e, base, txs, d) && Bound(txs) <= U64_MAX && Visits(d, order)
    ensures FinalBase(d, base) == SerialState(e, base, txs)
    ensures Mirrored(sha, base, puts) ==> Mirrored(sha, SerialState(e, base, txs), puts + PutsOf(sha, d, order))
  {
    hide Synced, Mirrors, Visited, FinalBase, SerialState;
    var s := SerialState(e, base, txs);
    FinalizeIsSerial(d, base, s, Bound(txs));
    SerialGrows(e, base, txs);
    if PathsApart(sha, s.Keys) && Mirrored(sha, base, puts) {
      FinalizeMirrors(sha, base, s, Bound(txs), d, puts, order);
    }
  }

  lemma ResultsSerial(search: SearchFn, e: Setting, base: Base, txs: seq<Tx>, rs: seq<ExecutionResult>)
    requires SearchOk(search) && InOrder(txs) && Settles(e, base, txs)
    requires rs == PassResults(search, e, map[], base, txs)
    ensures SerialResults(e, base, txs, rs)
  {
    hide SearchOk, InOrder, Settles, PassOutcome, SerialResult, Plain;
    forall i | 0 <= i < |txs| ensures Plain(rs[i]) == Plain(SerialResult(e, base, txs, i)) {
      PassIsSerial(search, e, base, txs, i);
    }
  }

  /** The results of serial execution, up to the version numbers of reads. */
  ghost predicate SerialResults(e: Setting, base: Base, txs: seq<Tx>, rs: seq<ExecutionResult>) {
    |rs| == |txs| && forall i :: 0 <= i < |txs| ==> Plain(rs[i]) == Plain(SerialResult(e, base, txs, i))
  }

  /** The end of `process_commit`: number the transactions, execute the batch, finalize. */
  method ExecuteBlock(x: ParallelExecutor, b: Block) returns (out: seq<ExecutionResult>)
    requires x.state.Valid()
    modifies x.state, x.state.jmt
    ensures x.state.Valid()
    ensures old(x.state.data) == map[] ==> x.state.data == map[]
    ensures var e := Setting(x.machine, b.coinbase);
            old(x.state.data) == map[] && Clean(x.machine, old(x.state.base), b) ==>
              && x.state.base == SerialState(e, old(x.state.base), Numbered(b))
              && SerialResults(e, old(x.state.base), Numbered(b), out)
              && (Mirrored(x.state.jmt.sha, old(x.state.base), old(x.state.jmt.puts)) ==>
                  Mirrored(x.state.jmt.sha, x.state.base, x.state.jmt.puts))
  {
    hide MultiVersionState.Valid, InStep, Settles, CommitAll, PassData, Lists, Mirrored, InRange, SerialState,
         FinalBase, SerialResult, Plain, InOrder, Traces, ListsResults;
    ghost var e, base, d0, puts := Setting(x.machine, b.coinbase), x.state.base, x.state.data, x.state.jmt.puts;
    ghost var clean := d0 == map[] && Clean(x.machine, base, b);
    if b.txs == [] {
      SerialNothing(e, base);
      return [];
    }
    ghost var txs, trace;
    out, txs, trace := x.ExecuteBatch(Numbered(b), b.coinbase);
    ghost var d := x.state.data;
    if clean {
      NumberedInOrder(b);
      ListsItself(Numbered(b), txs);
      StateSearches(x.state);
      SettledInStep(x.state.search, e, base, txs, out);
      ResultsSerial(x.state.search, e, base, txs, out);
    }
    ghost var order := x.state.Finalize();
    if clean {
      FinalizeMirrored(x.state.jmt.sha, e, base, txs, d, puts, order);
    }
  }

  lemma SerialNothing(e: Setting, base: Base)
    ensures SerialState(e, base, []) == base
  {
  }

  /** Every block is clean where serial execution runs it. */
  ghost predicate AllClean(m: Machine, base: Base, blocks: seq<Block>) {
    forall i :: 0 <= i < |blocks| ==> Clean(m, SerialBlocks(m, base, blocks[..i]), blocks[i])
  }

  /** Any run of blocks, on a state whose chains start empty, is serial execution, and the tree mirrors the result. */
  method RunBlocks(x: ParallelExecutor, blocks: seq<Block>)
    requires x.state.Valid() && x.state.data == map[]
    modifies x.state, x.state.jmt
    ensures x.state.Valid() && x.state.data == map[]
    ensures AllClean(x.machine, old(x.state.base), blocks) ==>
              && x.state.base == SerialBlocks(x.machine, old(x.state.base), blocks)
              && (Mirrored(x.state.jmt.sha, old(x.state.base), old(x.state.jmt.puts)) ==>
                  Mirrored(x.state.jmt.sha, x.state.base, x.state.jmt.puts))
  {
    hide MultiVersionState.Valid, Clean, Mirrored, SerialState, SerialResults;
    ghost var base, puts := x.state.base, x.state.jmt.puts;
    for n := 0 to |blocks|
      invariant x.state.Valid() && x.state.data == map[]
      invariant AllClean(x.machine, base, blocks) ==>
                  && x.state.base == SerialBlocks(x.machine, base, blocks[..n])
                  && (Mirrored(x.state.jmt.sha, base, puts) ==>
                      Mirrored(x.state.jmt.sha, x.state.base, x.state.jmt.puts))
    {
      assert blocks[..n + 1][..n] == blocks[..n];
      var _ := ExecuteBlock(x, blocks[n]);
    }
    assert blocks[..|blocks|] == blocks;
  }

  // ---------------------------------------------------------------- the state root

  ghost function ValueInputs(s: Base): set<seq<Byte>> {
    set k | k in s :: ToBeBytes(s[k])
  }

  lemma MirrorsUnique(sha: HashFn, s: Base, m: Entries, n: Entries)
    requires Mirrors(sha, s, m) && Mirrors(sha, s, n)
    ensures m == n
  {
    hide PathOf, ValueHash;
    forall p ensures Lookup(m, p) == Lookup(n, p) {
      if IsPath(sha, s, p) {
        var k :| k in s && PathOf(sha, k) == p;
      }
    }
    assert forall p :: (p in m <==> Lookup(m, p).Some?) && (p in n <==> Lookup(n, p).Some?);
  }

  lemma ValuesBind(sha: HashFn, inputs: set<seq<Byte>>, s: Base, t: Base, k: StateKey)
    requires NoCollision(sha, inputs) && ValueInputs(s) + ValueInputs(t) <= inputs
    requires k in s && k in t && ValueHash(sha, s[k]) == ValueHash(sha, t[k])
    ensures s[k] == t[k]
  {
    assert ToBeBytes(s[k]) in ValueInputs(s) && ToBeBytes(t[k]) in ValueInputs(t);
    BytesRoundTrip(s[k]);
    BytesRoundTrip(t[k]);
  }

  lemma MirrorsBind(sha: HashFn, s: Base, t: Base, m: Entries)
    requires NoCollision(sha, ValueInputs(s) + ValueInputs(t)) && PathsApart(sha, s.Keys + t.Keys)
    requires Mirrors(sha, s, m) && Mirrors(sha, t, m)
    ensures s == t
  {
    hide PathOf, ValueHash, NoCollision, ValueInputs;
    forall k | k in s.Keys + t.Keys ensures k in s && k in t && s[k] == t[k] {
      assert IsPath(sha, s, PathOf(sha, k)) && IsPath(sha, t, PathOf(sha, k));
      ValuesBind(sha, ValueInputs(s) + ValueInputs(t), s, t, k);
    }
  }

  /** Two mirrored states have the same root exactly when they are the same state. */
  lemma StateRoot(sha: HashFn, s: Base, t: Base, a: seq<JmtRuns.Write>, b: seq<JmtRuns.Write>)
    requires Mirrored(sha, s, a) && Mirrored(sha, t, b)
    requires NoCollision(sha, KeyInputs(s.Keys + t.Keys)) && NoCollision(sha, ValueInputs(s) + ValueInputs(t))
    requires NoCollision(sha, Preimages(RunNodes(sha, a) + RunNodes(sha, b)))
    ensures JmtRuns.Run(sha, a).1 == JmtRuns.Run(sha, b).1 <==> s == t
  {
    ApartWithoutCollision(sha, s.Keys + t.Keys);
    RootBindsMap(sha, a, b);
    hide NoCollision, Mirrors, JmtRuns.Run;
    if s == t {
      MirrorsUnique(sha, s, JmtRuns.MapOf(a), JmtRuns.MapOf(b));
    }
    if JmtRuns.MapOf(a) == JmtRuns.MapOf(b) {
      MirrorsBind(sha, s, t, JmtRuns.MapOf(a));
    }
  }
}
