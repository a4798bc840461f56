/** The tree and the base state agree after every finalize. */
module Authenticated {
  import opened Common
  import opened Words
  import opened Versions
  import opened JmtTree
  import opened Jmt
  import opened JmtRuns
  import opened Mvcc

  ghost function HashedValue(sha: HashFn, v: Option<U256>): Option<Digest> {
    match v case None => None case Some(x) => Some(ValueHash(sha, x))
  }

  /** The keys' bytes do not collide under the hash, so different keys have different paths. */
  ghost predicate PathsApart(sha: HashFn, keys: set<StateKey>) {
    forall a, b :: a in keys && b in keys && PathOf(sha, a) == PathOf(sha, b) ==> a == b
  }

  ghost function KeyInputs(keys: set<StateKey>): set<seq<Byte>> {
    set k | k in keys :: KeyBytes(k)
  }

  lemma ApartWithoutCollision(sha: HashFn, keys: set<StateKey>)
    requires NoCollision(sha, KeyInputs(keys))
    ensures PathsApart(sha, keys)
  {
    forall a, b | a in keys && b in keys && PathOf(sha, a) == PathOf(sha, b) ensures a == b {
      assert KeyBytes(a) in KeyInputs(keys) && KeyBytes(b) in KeyInputs(keys);
      KeyBytesInjective(a, b);
    }
  }

  /** For the given keys, the tree's entry is the hash of the base value, and absent when that is absent. */
  ghost predicate Agrees(sha: HashFn, keys: set<StateKey>, base: Base, m: Entries) {
    forall k :: k in keys ==> Lookup(m, PathOf(sha, k)) == HashedValue(sha, Lookup(base, k))
  }

  // ---------------------------------------------------------------- one finalize

  lemma {:induction false} MapOfAppend(a: seq<Write>, b: seq<Write>)
    ensures MapOf(a + b) == MapOf(a) + MapOf(b)
  {
    if b == [] {
      assert a + b == a;
    } else {
      var rest := b[..|b| - 1];
      MapOfAppend(a, rest);
      assert (a + b)[..|a + b| - 1] == a + rest;
    }
  }

  lemma {:induction false} MapOfEntry(puts: seq<Write>, p: Digest)
    ensures p in MapOf(puts) ==> (p, MapOf(puts)[p]) in puts
    ensures (exists i :: 0 <= i < |puts| && puts[i].0 == p) ==> p in MapOf(puts)
  {
    if puts != [] {
      var n := |puts| - 1;
      MapOfEntry(puts[..n], p);
      assert puts == puts[..n] + [puts[n]];
      if i :| 0 <= i < |puts| && puts[i].0 == p {
        assert i < n ==> puts[..n][i].0 == p;
      }
    }
  }

  /** What flushing inserts for a key of interest. */
  lemma FlushedEntry(sha: HashFn, keys: set<StateKey>, d: Data, order: seq<StateKey>, k: StateKey)
    requires PathsApart(sha, keys) && k in keys && d.Keys <= keys && Visits(d, order)
    ensures Lookup(MapOf(PutsOf(sha, d, order)), PathOf(sha, k)) ==
            if Flushed(d, k) then Some(FlushPut(sha, d, k).1) else None
  {
    hide FlushPut;
    var puts, p := PutsOf(sha, d, order), PathOf(sha, k);
    MapOfEntry(puts, p);
    assert forall x :: FlushPut(sha, d, x).0 == PathOf(sha, x) by {
      FlushPutPath(sha, d);
    }
    if Flushed(d, k) {
      var i :| 0 <= i < |order| && order[i] == k;
      assert puts[i].0 == p;
    }
    if p in MapOf(puts) {
      var i :| 0 <= i < |puts| && puts[i] == (p, MapOf(puts)[p]);
      assert order[i] in keys && PathOf(sha, order[i]) == p;
    }
  }

  lemma FlushPutPath(sha: HashFn, d: Data)
    ensures forall k :: FlushPut(sha, d, k).0 == PathOf(sha, k)
  {
  }

  /** A chain holds only values, never deletions. */
  ghost predicate NoDeletion(c: Chain) {
    forall i :: 0 <= i < |c| ==> c[i].value.Some?
  }

  /** Finalize deletes `k`: its last visible version is a deletion. */
  ghost predicate Deletes(d: Data, k: StateKey) {
    k in d && ReadFor(d[k], U64_MAX).Some? && ReadFor(d[k], U64_MAX).value.0.None?
  }

  lemma NoDeletionReads(c: Chain, reader: U64)
    requires NoDeletion(c)
    ensures ReadFor(c, reader).Some? ==> ReadFor(c, reader).value.0.Some?
  {
    var i := ReadForFirst(c, reader);
  }

  /** From agreement, finalize keeps agreement exactly when it deletes no key of the base state. */
  lemma FinalizeAgrees(sha: HashFn, keys: set<StateKey>, d: Data, base: Base, puts: seq<Write>, order: seq<StateKey>)
    requires PathsApart(sha, keys) && d.Keys + base.Keys <= keys && Visits(d, order)
    requires Agrees(sha, keys, base, MapOf(puts))
    ensures Agrees(sha, keys, FinalBase(d, base), MapOf(puts + PutsOf(sha, d, order))) <==>
            forall k :: k in base ==> !Deletes(d, k)
  {
    var after := PutsOf(sha, d, order);
    MapOfAppend(puts, after);
    forall k | k in keys ensures
      (Lookup(MapOf(puts + after), PathOf(sha, k)) == HashedValue(sha, Lookup(FinalBase(d, base), k))) <==>
      !(k in base && Deletes(d, k))
    {
      FlushedEntry(sha, keys, d, order, k);
      FinalBaseLookup(d, base, k);
      LookupSum(MapOf(puts), MapOf(after), PathOf(sha, k));
      hide PathsApart, Visited, FinalBase, MapOf, PutsOf, PathOf, ValueHash;
    }
  }

  lemma LookupSum(a: Entries, b: Entries, p: Digest)
    ensures Lookup(a + b, p) == if p in b then Lookup(b, p) else Lookup(a, p)
  {
  }

  // ---------------------------------------------------------------- whole runs

  /** What can happen to the state: writes, commits and aborts of write sets, and finalizes. */
  datatype Step =
    | Write(key: StateKey, writer: U64, value: Option<U256>)
    | SetStatus(keys: set<StateKey>, seqNo: U64, status: TxStatus)
    | Finalize(order: seq<StateKey>)

  datatype World = World(data: Data, base: Base, puts: seq<JmtRuns.Write>)

  ghost function Take(search: SearchFn, sha: HashFn, w: World, step: Step): World {
    match step
    case Write(k, s, v) => w.(data := Written(search, w.data, k, s, v))
    case SetStatus(keys, s, status) => w.(data := Marked(w.data, keys, s, status))
    case Finalize(order) => World(map[], FinalBase(w.data, w.base), w.puts + PutsOf(sha, w.data, order))
  }

  ghost function Run(search: SearchFn, sha: HashFn, steps: seq<Step>): World {
    if steps == [] then World(map[], map[], []) else
      Take(search, sha, Run(search, sha, steps[..|steps| - 1]), steps[|steps| - 1])
  }

  /** The keys of interest are written, and a finalize may visit the flushed keys in any order. */
  ghost predicate Allowed(search: SearchFn, sha: HashFn, keys: set<StateKey>, steps: seq<Step>) {
    forall i {:trigger steps[i]} :: 0 <= i < |steps| ==>
      match steps[i]
      case Write(k, s, v) => k in keys
      case SetStatus(_, _, _) => true
      case Finalize(order) => Visits(Run(search, sha, steps[..i]).data, order)
  }

  ghost predicate InBounds(keys: set<StateKey>, w: World) {
    w.data.Keys <= keys && w.base.Keys <= keys
  }

  lemma AllowedBefore(search: SearchFn, sha: HashFn, keys: set<StateKey>, steps: seq<Step>, n: nat)
    requires n <= |steps| && Allowed(search, sha, keys, steps)
    ensures Allowed(search, sha, keys, steps[..n])
  {
    hide Visited, Run;
    var rest := steps[..n];
    forall i | 0 <= i < |rest| ensures rest[i] == steps[i] && rest[..i] == steps[..i] {
    }
  }

  lemma {:induction false} RunInBounds(search: SearchFn, sha: HashFn, keys: set<StateKey>, steps: seq<Step>)
    requires Allowed(search, sha, keys, steps)
    ensures InBounds(keys, Run(search, sha, steps))
  {
    hide Visited;
    if steps != [] {
      var n := |steps| - 1;
      AllowedBefore(search, sha, keys, steps, n);
      RunInBounds(search, sha, keys, steps[..n]);
      assert steps[n] == steps[n];
    }
  }

  /** After the first `n` steps the tree and the base state agree. */
  ghost predicate AgreesUpTo(search: SearchFn, sha: HashFn, keys: set<StateKey>, steps: seq<Step>, n: nat)
    requires n <= |steps|
  {
    var w := Run(search, sha, steps[..n]);
    Agrees(sha, keys, w.base, MapOf(w.puts))
  }

  /** Step `i`, if a finalize, deletes no key of the base state. */
  ghost predicate DeletesNoBase(search: SearchFn, sha: HashFn, steps: seq<Step>, i: nat)
    requires i < |steps|
  {
    steps[i].Finalize? ==>
      var w := Run(search, sha, steps[..i]);
      forall k :: k in w.base ==> !Deletes(w.data, k)
  }

  lemma RunUnfolds(search: SearchFn, sha: HashFn, steps: seq<Step>, i: nat)
    requires i < |steps|
    ensures Run(search, sha, steps[..i + 1]) == Take(search, sha, Run(search, sha, steps[..i]), steps[i])
  {
    var upTo := steps[..i + 1];
    assert upTo[..i] == steps[..i] && upTo[i] == steps[i];
  }

  /** One step keeps agreement exactly when it deletes no key of the base state. */
  lemma StepAgrees(search: SearchFn, sha: HashFn, keys: set<StateKey>, steps: seq<Step>, i: nat)
    requires PathsApart(sha, keys) && Allowed(search, sha, keys, steps) && i < |steps|
    requires AgreesUpTo(search, sha, keys, steps, i)
    ensures AgreesUpTo(search, sha, keys, steps, i + 1) <==> DeletesNoBase(search, sha, steps, i)
  {
    hide PathsApart, Visited, FinalBase, Marked, Written, Agrees, Deletes, Run, MapOf, PutsOf;
    RunUnfolds(search, sha, steps, i);
    AllowedBefore(search, sha, keys, steps, i);
    RunInBounds(search, sha, keys, steps[..i]);
    var w := Run(search, sha, steps[..i]);
    assert steps[i] == steps[i];
    if steps[i].Finalize? {
      FinalizeAgrees(sha, keys, w.data, w.base, w.puts, steps[i].order);
    }
  }

  lemma StartAgrees(search: SearchFn, sha: HashFn, keys: set<StateKey>, steps: seq<Step>)
    ensures AgreesUpTo(search, sha, keys, steps, 0)
  {
    assert steps[..0] == [];
  }

  /** Any run whose finalizes delete no key of the base state keeps tree and base state in agreement. */
  lemma {:induction false} RunAgrees(search: SearchFn, sha: HashFn, keys: set<StateKey>, steps: seq<Step>, n: nat)
    requires PathsApart(sha, keys) && Allowed(search, sha, keys, steps) && n <= |steps|
    requires forall i :: 0 <= i < n ==> DeletesNoBase(search, sha, steps, i)
    ensures AgreesUpTo(search, sha, keys, steps, n)
  {
    hide PathsApart, Allowed, AgreesUpTo;
    if n == 0 {
      StartAgrees(search, sha, keys, steps);
    } else {
      RunAgrees(search, sha, keys, steps, n - 1);
      StepAgrees(search, sha, keys, steps, n - 1);
      assert DeletesNoBase(search, sha, steps, n - 1);
    }
  }

  /** Tree and base state agree after every step of a run exactly when no finalize deletes a key of the base state. */
  lemma RunAgreesExactly(search: SearchFn, sha: HashFn, keys: set<StateKey>, steps: seq<Step>)
    requires PathsApart(sha, keys) && Allowed(search, sha, keys, steps)
    ensures (forall n :: 0 <= n <= |steps| ==> AgreesUpTo(search, sha, keys, steps, n)) <==>
            (forall i :: 0 <= i < |steps| ==> DeletesNoBase(search, sha, steps, i))
  {
    hide PathsApart, Allowed, AgreesUpTo, DeletesNoBase;
    if forall i :: 0 <= i < |steps| ==> DeletesNoBase(search, sha, steps, i) {
      forall n | 0 <= n <= |steps| ensures AgreesUpTo(search, sha, keys, steps, n) {
        RunAgrees(search, sha, keys, steps, n);
      }
    }
    if forall n :: 0 <= n <= |steps| ==> AgreesUpTo(search, sha, keys, steps, n) {
      forall i | 0 <= i < |steps| ensures DeletesNoBase(search, sha, steps, i) {
        assert AgreesUpTo(search, sha, keys, steps, i) && AgreesUpTo(search, sha, keys, steps, i + 1);
        StepAgrees(search, sha, keys, steps, i);
      }
    }
  }

  /** After any such run, `get` answers the hash of the base value for every key, and nothing exactly for the keys the
      base state lacks. */
  lemma AuthenticatedState(search: SearchFn, sha: HashFn, keys: set<StateKey>, steps: seq<Step>, k: StateKey)
    requires NoCollision(sha, KeyInputs(keys)) && Allowed(search, sha, keys, steps) && k in keys
    requires forall i :: 0 <= i < |steps| ==> DeletesNoBase(search, sha, steps, i)
    requires NoCollision(sha, Preimages(RunNodes(sha, Run(search, sha, steps).puts)))
    ensures var w := Run(search, sha, steps);
            var tree := JmtRuns.Run(sha, w.puts);
            GetRec(tree.0, tree.1, PathOf(sha, k), 0) == HashedValue(sha, Lookup(w.base, k))
  {
    ApartWithoutCollision(sha, keys);
    RunAgrees(search, sha, keys, steps, |steps|);
    assert steps[..|steps|] == steps;
    var puts := Run(search, sha, steps).puts;
    assert puts[..|puts|] == puts;
    HistoryReadable(sha, puts, |puts|, PathOf(sha, k));
  }

  // ---------------------------------------------------------------- runs without deleting writes

  ghost predicate NoDeletions(w: World) {
    forall k :: k in w.data ==> NoDeletion(w.data[k])
  }

  lemma WriteNoDeletion(search: SearchFn, w: World, k: StateKey, s: U64, v: U256)
    requires NoDeletions(w)
    ensures NoDeletions(w.(data := Written(search, w.data, k, s, Some(v))))
  {
    var c := ChainOf(w.data, k);
    assert NoDeletion(c);
    assert NoDeletion(Add(search, c, Version(s, Some(v), Pending)));
  }

  lemma StatusNoDeletion(w: World, marked: set<StateKey>, s: U64, status: TxStatus)
    requires NoDeletions(w)
    ensures NoDeletions(w.(data := Marked(w.data, marked, s, status)))
  {
    forall k | k in w.data ensures NoDeletion(Mark(w.data[k], s, status)) {
      var i := MarkAt(w.data[k], s, status);
    }
  }

  ghost predicate WritesValues(steps: seq<Step>) {
    forall i :: 0 <= i < |steps| ==> steps[i].Write? ==> steps[i].value.Some?
  }

  lemma {:induction false} RunNoDeletions(search: SearchFn, sha: HashFn, steps: seq<Step>)
    requires WritesValues(steps)
    ensures NoDeletions(Run(search, sha, steps))
  {
    hide NoDeletions, Written, Marked, FinalBase, PutsOf;
    if steps == [] {
      ClearedNoDeletions(map[], []);
    } else {
      var n := |steps| - 1;
      RunNoDeletions(search, sha, steps[..n]);
      var w := Run(search, sha, steps[..n]);
      match steps[n] {
        case Write(k, s, v) => WriteNoDeletion(search, w, k, s, v.value);
        case SetStatus(marked, s, status) => StatusNoDeletion(w, marked, s, status);
        case Finalize(order) => ClearedNoDeletions(FinalBase(w.data, w.base), w.puts + PutsOf(sha, w.data, order));
      }
    }
  }

  lemma ClearedNoDeletions(base: Base, puts: seq<JmtRuns.Write>)
    ensures NoDeletions(World(map[], base, puts))
  {
  }

  /** Writes that carry values never make a finalize delete. */
  lemma ValuesDeleteNothing(search: SearchFn, sha: HashFn, steps: seq<Step>, i: nat)
    requires WritesValues(steps) && i < |steps|
    ensures DeletesNoBase(search, sha, steps, i)
  {
    hide Run;
    RunNoDeletions(search, sha, steps[..i]);
    var w := Run(search, sha, steps[..i]);
    forall k | k in w.base ensures !Deletes(w.data, k) {
      if k in w.data {
        NoDeletionReads(w.data[k], U64_MAX);
      }
    }
  }
}
