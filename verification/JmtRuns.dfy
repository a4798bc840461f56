/** The authenticated map over whole runs of insertions. */
module JmtRuns {
  import opened Common
  import opened Words
  import opened JmtTree
  import opened Jmt

  type Write = (Digest, Digest)

  /** The last value hash put for each path. */
  ghost function MapOf(puts: seq<Write>): Entries {
    if puts == [] then map[] else
      var last := puts[|puts| - 1];
      MapOf(puts[..|puts| - 1])[last.0 := last.1]
  }

  /** Table and root after the insertions, from the empty tree. */
  ghost function Run(sha: HashFn, puts: seq<Write>): (Table, Digest) {
    if puts == [] then (map[], EMPTY_HASH) else
      var before := Run(sha, puts[..|puts| - 1]);
      var last := puts[|puts| - 1];
      PutRec(sha, before.0, before.1, last.0, last.1, 0)
  }

  ghost function TreeOf(puts: seq<Write>): Tree {
    Canon(MapOf(puts), 0)
  }

  /** Every node of every tree the run passes through. */
  ghost function RunNodes(sha: HashFn, puts: seq<Write>): set<Node> {
    if puts == [] then {} else RunNodes(sha, puts[..|puts| - 1]) + NodesOf(sha, TreeOf(puts))
  }

  lemma {:induction false} NoEmptyNodes(sha: HashFn, t: Tree)
    ensures Empty !in NodesOf(sha, t)
  {
    if t.Fork? {
      NoEmptyNodes(sha, t.left);
      NoEmptyNodes(sha, t.right);
    }
  }

  lemma {:induction false} RunNodesReal(sha: HashFn, puts: seq<Write>)
    ensures Empty !in RunNodes(sha, puts)
  {
    if puts != [] {
      RunNodesReal(sha, puts[..|puts| - 1]);
      NoEmptyNodes(sha, TreeOf(puts));
    }
  }

  lemma {:induction false} PrefixNodes(sha: HashFn, puts: seq<Write>, n: nat)
    requires n <= |puts|
    ensures RunNodes(sha, puts[..n]) <= RunNodes(sha, puts) && NodesOf(sha, TreeOf(puts[..n])) <= RunNodes(sha, puts)
  {
    if n == |puts| {
      assert puts[..n] == puts;
      if puts == [] {
        EmptyTree();
      }
    } else {
      var rest := puts[..|puts| - 1];
      assert rest[..n] == puts[..n];
      PrefixNodes(sha, rest, n);
      assert RunNodes(sha, puts) == RunNodes(sha, rest) + NodesOf(sha, TreeOf(puts));
    }
  }

  lemma EmptyTree()
    ensures TreeOf([]) == Nil
  {
  }

  lemma AllAligned(s: set<Digest>)
    ensures Aligned(s, 0)
  {
  }

  /** The run stores every tree it passes through, at the address the map alone determines. */
  lemma {:induction false} RunStores(sha: HashFn, u: set<Node>, puts: seq<Write>)
    requires Separated(sha, u) && RunNodes(sha, puts) <= u
    ensures var r := Run(sha, puts);
            && r.1 == TreeHash(sha, TreeOf(puts))
            && Addressed(sha, r.0, u) && Stored(sha, r.0, RunNodes(sha, puts))
  {
    hide Separated, Addressed, Stored, Extends, TreeHash, NodesOf;
    if puts == [] {
      EmptyRun(sha, u);
    } else {
      var rest, last := puts[..|puts| - 1], puts[|puts| - 1];
      RunStores(sha, u, rest);
      AllAligned(MapOf(rest).Keys + {last.0});
      PutCanon(MapOf(rest), last.0, last.1, 0);
      PrefixNodes(sha, puts, |rest|);
      PrefixNodes(sha, rest, |rest|);
      assert rest[..|rest|] == rest;
      var before := Run(sha, rest);
      StoredSubset(sha, before.0, NodesOf(sha, TreeOf(rest)), RunNodes(sha, rest));
      PutRefines(sha, u, before.0, TreeOf(rest), last.0, last.1, 0);
      StoredUnion(sha, before.0, Run(sha, puts).0, RunNodes(sha, rest), NodesOf(sha, TreeOf(puts)));
    }
  }

  lemma EmptyRun(sha: HashFn, u: set<Node>)
    ensures Addressed(sha, map[], u) && Stored(sha, map[], {}) && TreeHash(sha, TreeOf([])) == EMPTY_HASH
  {
    EmptyTree();
  }

  lemma StoredSubset(sha: HashFn, nodes: Table, a: set<Node>, b: set<Node>)
    requires Stored(sha, nodes, b) && a <= b
    ensures Stored(sha, nodes, a)
  {
  }

  lemma StoredUnion(sha: HashFn, nodes: Table, nodes2: Table, a: set<Node>, b: set<Node>)
    requires Stored(sha, nodes, a) && Extends(nodes, nodes2) && Stored(sha, nodes2, b)
    ensures Stored(sha, nodes2, a + b)
  {
    StoredExtends(sha, nodes, nodes2, a);
  }

  // ---------------------------------------------------------------- theorems

  /** The root is a function of the final map alone. */
  lemma CanonicalRoot(sha: HashFn, puts: seq<Write>)
    requires NoCollision(sha, Preimages(RunNodes(sha, puts)))
    ensures Run(sha, puts).1 == TreeHash(sha, Canon(MapOf(puts), 0))
  {
    RunNodesReal(sha, puts);
    DomainSeparation(sha, RunNodes(sha, puts));
    RunStores(sha, RunNodes(sha, puts), puts);
  }

  /** Every root the run has had still reads back, from the final table, the map of its time. */
  lemma HistoryReadable(sha: HashFn, puts: seq<Write>, n: nat, k: Digest)
    requires NoCollision(sha, Preimages(RunNodes(sha, puts))) && n <= |puts|
    ensures GetRec(Run(sha, puts).0, Run(sha, puts[..n]).1, k, 0) == Lookup(MapOf(puts[..n]), k)
  {
    var u := RunNodes(sha, puts);
    RunNodesReal(sha, puts);
    DomainSeparation(sha, u);
    RunStores(sha, u, puts);
    PrefixNodes(sha, puts, n);
    RunStores(sha, u, puts[..n]);
    hide NoCollision, Separated, Stored, Addressed;
    StoredSubset(sha, Run(sha, puts).0, NodesOf(sha, TreeOf(puts[..n])), u);
    GetRefines(sha, u, Run(sha, puts).0, TreeOf(puts[..n]), k, 0);
    AllAligned(MapOf(puts[..n]).Keys + {k});
    GetCanon(MapOf(puts[..n]), k, 0);
  }

  /** Whatever siblings are offered, a proof that checks against the root proves an entry of the map. */
  lemma NoForgery(sha: HashFn, puts: seq<Write>, k: Digest, v: Digest, siblings: Siblings)
    requires NoCollision(sha, Preimages(RunNodes(sha, puts) + FoldNodes(sha, k, siblings, v)))
    requires Fold(sha, k, siblings, NodeHash(sha, Leaf(k, v))) == Run(sha, puts).1
    ensures Lookup(MapOf(puts), k) == Some(v)
  {
    var u := RunNodes(sha, puts) + FoldNodes(sha, k, siblings, v);
    RunNodesReal(sha, puts);
    FoldNodesReal(sha, k, siblings, v);
    DomainSeparation(sha, u);
    RunStores(sha, u, puts);
    PrefixNodes(sha, puts, |puts|);
    assert puts[..|puts|] == puts;
    hide NoCollision, Separated, Stored, Addressed;
    ProofSound(sha, u, TreeOf(puts), k, v, siblings);
    TipsAreEntries(MapOf(puts), k, v, 0);
  }

  lemma {:induction false} FoldNodesReal(sha: HashFn, k: Digest, siblings: Siblings, v: Digest)
    ensures Empty !in FoldNodes(sha, k, siblings, v)
  {
    if siblings != [] {
      FoldNodesReal(sha, k, siblings[1..], v);
    }
  }

  /** The proof the tree generates for a key checks for a value exactly when the key holds that value. */
  lemma ExactProof(sha: HashFn, puts: seq<Write>, k: Digest, v: Digest)
    requires var siblings := CollectSiblings(Run(sha, puts).0, Run(sha, puts).1, k, 0);
             NoCollision(sha, Preimages(RunNodes(sha, puts) + FoldNodes(sha, k, siblings, v)))
    ensures var siblings := CollectSiblings(Run(sha, puts).0, Run(sha, puts).1, k, 0);
            Fold(sha, k, siblings, NodeHash(sha, Leaf(k, v))) == Run(sha, puts).1 <==>
            GetRec(Run(sha, puts).0, Run(sha, puts).1, k, 0) == Some(v)
  {
    var nodes, root := Run(sha, puts).0, Run(sha, puts).1;
    var siblings := CollectSiblings(nodes, root, k, 0);
    var u := RunNodes(sha, puts) + FoldNodes(sha, k, siblings, v);
    RunNodesReal(sha, puts);
    FoldNodesReal(sha, k, siblings, v);
    DomainSeparation(sha, u);
    RunStores(sha, u, puts);
    PrefixNodes(sha, puts, |puts|);
    assert puts[..|puts|] == puts;
    hide Separated, Stored, Addressed, NoCollision, NodeHash;
    StoredSubset(sha, nodes, NodesOf(sha, TreeOf(puts)), RunNodes(sha, puts));
    GetRefines(sha, u, nodes, TreeOf(puts), k, 0);
    if GetRec(nodes, root, k, 0) == Some(v) {
      ProofComplete(sha, u, nodes, TreeOf(puts), k, v, 0);
    }
    if Fold(sha, k, siblings, NodeHash(sha, Leaf(k, v))) == root {
      NoForgery(sha, puts, k, v, siblings);
      AllAligned(MapOf(puts).Keys + {k});
      GetCanon(MapOf(puts), k, 0);
    }
  }

  // ---------------------------------------------------------------- roots bind maps

  lemma {:induction false} HashBindsTree(sha: HashFn, u: set<Node>, a: Tree, b: Tree)
    requires Separated(sha, u) && NodesOf(sha, a) <= u && NodesOf(sha, b) <= u
    requires TreeHash(sha, a) == TreeHash(sha, b)
    ensures a == b
  {
    TreeHashEmpty(sha, u, a);
    TreeHashEmpty(sha, u, b);
    if a.Tip? {
      TopIsRoot(sha, u, b, Leaf(a.key, a.value));
    } else if a.Fork? {
      TopIsRoot(sha, u, b, Internal(TreeHash(sha, a.left), TreeHash(sha, a.right)));
      hide Separated, NodeHash;
      HashBindsTree(sha, u, a.left, b.left);
      HashBindsTree(sha, u, a.right, b.right);
    }
  }

  lemma CanonBindsMap(m: Entries, n: Entries)
    requires Canon(m, 0) == Canon(n, 0)
    ensures m == n
  {
    forall k ensures Lookup(m, k) == Lookup(n, k) {
      AllAligned(m.Keys + {k});
      AllAligned(n.Keys + {k});
      GetCanon(m, k, 0);
      GetCanon(n, k, 0);
    }
    assert forall k :: (k in m) == Lookup(m, k).Some? && (k in n) == Lookup(n, k).Some?;
    assert m.Keys == n.Keys;
  }

  /** Two runs have the same root exactly when they end in the same map. */
  lemma RootBindsMap(sha: HashFn, a: seq<Write>, b: seq<Write>)
    requires NoCollision(sha, Preimages(RunNodes(sha, a) + RunNodes(sha, b)))
    ensures Run(sha, a).1 == Run(sha, b).1 <==> MapOf(a) == MapOf(b)
  {
    var u := RunNodes(sha, a) + RunNodes(sha, b);
    RunNodesReal(sha, a);
    RunNodesReal(sha, b);
    DomainSeparation(sha, u);
    RunStores(sha, u, a);
    RunStores(sha, u, b);
    PrefixNodes(sha, a, |a|);
    PrefixNodes(sha, b, |b|);
    assert a[..|a|] == a && b[..|b|] == b;
    hide Separated, Stored, Addressed, NoCollision;
    if Run(sha, a).1 == Run(sha, b).1 {
      HashBindsTree(sha, u, TreeOf(a), TreeOf(b));
      CanonBindsMap(MapOf(a), MapOf(b));
    }
  }

  // ---------------------------------------------------------------- the tree object

  function PathOf(sha: HashFn, key: StateKey): Digest {
    sha(KeyBytes(key))
  }

  function ValueHash(sha: HashFn, value: U256): Digest {
    sha(ToBeBytes(value))
  }

  /** A path is the hash of 52 bytes, the address and the slot; a value hash is that of the value's 32 bytes. */
  lemma WhatIsHashed(sha: HashFn, key: StateKey, value: U256) returns (k: seq<Byte>, v: seq<Byte>)
    ensures PathOf(sha, key) == sha(k) && |k| == 52 && k[..20] == key.address && FromBe(k[20..]) == Val(key.slot)
    ensures ValueHash(sha, value) == sha(v) && |v| == 32 && FromBe(v) == Val(value)
  {
    k, v := KeyBytes(key), ToBeBytes(value);
    KeyBytesSpell(key);
    BytesSpell(value);
  }

  class JellyfishMerkleTree {
    const sha: HashFn
    var nodes: Table
    var root: Digest
    var version: nat

    /** The insertions so far. */
    ghost var puts: seq<Write>

    ghost predicate Valid()
      reads this
    {
      (nodes, root) == Run(sha, puts) && version == |puts|
    }

    constructor (sha: HashFn)
      ensures Valid() && puts == [] && this.sha == sha && fresh(this)
    {
      this.sha := sha;
      nodes, root, version, puts := map[], EMPTY_HASH, 0, [];
    }

    method PutRecursive(h: Digest, k: Digest, v: Digest, depth: nat) returns (r: Digest)
      requires depth <= 256
      modifies this`nodes
      ensures (nodes, r) == PutRec(sha, old(nodes), h, k, v, depth)
      decreases 256 - depth
    {
      hide NodeHash, Bit;
      if depth >= 256 || h == EMPTY_HASH || h !in nodes {
        r := Insert(Leaf(k, v));
        return;
      }
      match nodes[h] {
        case Empty =>
          r := Insert(Leaf(k, v));
        case Leaf(k2, v2) =>
          if k2 == k {
            r := Insert(Leaf(k, v));
          } else {
            var existing := Insert(Leaf(k2, v2));
            if Bit(k2, depth) == Bit(k, depth) {
              var child := PutRecursive(existing, k, v, depth + 1);
              r := Insert(if Bit(k, depth) then Internal(EMPTY_HASH, child) else Internal(child, EMPTY_HASH));
            } else {
              var leaf := Insert(Leaf(k, v));
              r := Insert(if Bit(k, depth) then Internal(existing, leaf) else Internal(leaf, existing));
            }
          }
        case Internal(left, right) =>
          if Bit(k, depth) {
            var child := PutRecursive(right, k, v, depth + 1);
            r := Insert(Internal(left, child));
          } else {
            var child := PutRecursive(left, k, v, depth + 1);
            r := Insert(Internal(child, right));
          }
      }
    }

    method Insert(n: Node) returns (h: Digest)
      modifies this`nodes
      ensures (nodes, h) == Store(sha, old(nodes), n)
    {
      h := NodeHash(sha, n);
      nodes := nodes[h := n];
    }

    method Put(key: StateKey, value: U256) returns (r: Digest)
      requires Valid()
      modifies this
      ensures Valid() && r == root
      ensures puts == old(puts) + [(PathOf(sha, key), ValueHash(sha, value))]
    {
      var k, v := PathOf(sha, key), ValueHash(sha, value);
      r := PutRecursive(root, k, v, 0);
      root := r;
      version := version + 1;
      puts := puts + [(k, v)];
      assert puts[..|puts| - 1] == old(puts);
    }

    function Get(key: StateKey): (r: Option<Digest>)
      reads this
    {
      GetRec(nodes, root, PathOf(sha, key), 0)
    }

    /** `get` answers with the last value hash put for the key's path. */
    lemma GetReadsLastPut(key: StateKey)
      requires Valid() && NoCollision(sha, Preimages(RunNodes(sha, puts)))
      ensures Get(key) == Lookup(MapOf(puts), PathOf(sha, key))
    {
      assert puts[..|puts|] == puts;
      HistoryReadable(sha, puts, |puts|, PathOf(sha, key));
    }
  }
}
