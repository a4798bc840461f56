/** The content-addressed node table, its insertion, lookup and inclusion proofs. */
module Jmt {
  import opened Common
  import opened JmtTree

  datatype Node = Internal(left: Digest, right: Digest) | Leaf(key: Digest, value: Digest) | Empty

  type Table = map<Digest, Node>

  const EMPTY_HASH: Digest := [0, 0, 0, 0, 0, 0, 0, 0, 0, 0, 0, 0, 0, 0, 0, 0] +
      [0, 0, 0, 0, 0, 0, 0, 0, 0, 0, 0, 0, 0, 0, 0, 0]

  /** What is hashed: a marker byte keeps leaves and internal nodes apart. */
  function Preimage(n: Node): (b: seq<Byte>) {
    match n
    case Empty => []
    case Leaf(k, v) => [0] + k + v
    case Internal(l, r) => [1] + l + r
  }

  function NodeHash(sha: HashFn, n: Node): Digest {
    if n.Empty? then EMPTY_HASH else sha(Preimage(n))
  }

  lemma PreimageInjective(a: Node, b: Node)
    requires Preimage(a) == Preimage(b)
    ensures a == b
  {
    if !a.Empty? {
      assert Preimage(a)[0] == Preimage(b)[0] && Preimage(a)[1..33] == Preimage(b)[1..33] &&
             Preimage(a)[33..] == Preimage(b)[33..];
    }
  }

  // ---------------------------------------------------------------- the hypothesis on the hash

  /** On the given byte strings the hash has no collision and never yields the empty hash. */
  ghost predicate NoCollision(sha: HashFn, inputs: set<seq<Byte>>) {
    && (forall x, y :: x in inputs && y in inputs && sha(x) == sha(y) ==> x == y)
    && (forall x :: x in inputs ==> sha(x) != EMPTY_HASH)
  }

  ghost function Preimages(nodes: set<Node>): set<seq<Byte>> {
    set n | n in nodes :: Preimage(n)
  }

  /** The nodes of `u` are stored under different hashes, none of them the empty one. */
  ghost predicate Separated(sha: HashFn, u: set<Node>) {
    && (forall a, b :: a in u && b in u && NodeHash(sha, a) == NodeHash(sha, b) ==> a == b)
    && (forall a :: a in u ==> NodeHash(sha, a) != EMPTY_HASH)
  }

  /** The markers turn a collision-free hash into collision-free node addresses. */
  lemma DomainSeparation(sha: HashFn, u: set<Node>)
    requires Empty !in u && NoCollision(sha, Preimages(u))
    ensures Separated(sha, u)
  {
    forall a, b | a in u && b in u && NodeHash(sha, a) == NodeHash(sha, b) ensures a == b {
      assert Preimage(a) in Preimages(u) && Preimage(b) in Preimages(u);
      PreimageInjective(a, b);
    }
    forall a | a in u ensures NodeHash(sha, a) != EMPTY_HASH {
      assert Preimage(a) in Preimages(u);
    }
  }

  // ---------------------------------------------------------------- trees in a table

  function TreeHash(sha: HashFn, t: Tree): Digest {
    match t
    case Nil => EMPTY_HASH
    case Tip(k, v) => NodeHash(sha, Leaf(k, v))
    case Fork(l, r) => NodeHash(sha, Internal(TreeHash(sha, l), TreeHash(sha, r)))
  }

  ghost function NodesOf(sha: HashFn, t: Tree): set<Node> {
    match t
    case Nil => {}
    case Tip(k, v) => {Leaf(k, v)}
    case Fork(l, r) => {Internal(TreeHash(sha, l), TreeHash(sha, r))} + NodesOf(sha, l) + NodesOf(sha, r)
  }

  /** Every node of the tree is in the table under its hash. */
  ghost predicate Stored(sha: HashFn, nodes: Table, u: set<Node>) {
    forall n :: n in u ==> NodeHash(sha, n) in nodes && nodes[NodeHash(sha, n)] == n
  }

  /** The table holds nodes of `u`, each under its own hash. */
  ghost predicate Addressed(sha: HashFn, nodes: Table, u: set<Node>) {
    forall h :: h in nodes ==> nodes[h] in u && NodeHash(sha, nodes[h]) == h
  }

  ghost predicate Extends(a: Table, b: Table) {
    forall h :: h in a ==> h in b && b[h] == a[h]
  }

  /** Storing a node of `u` overwrites nothing. */
  lemma StoreKeeps(sha: HashFn, nodes: Table, u: set<Node>, n: Node)
    requires Separated(sha, u) && Addressed(sha, nodes, u) && n in u
    ensures var nodes2 := nodes[NodeHash(sha, n) := n];
            Addressed(sha, nodes2, u) && Extends(nodes, nodes2) && Stored(sha, nodes2, {n})
  {
  }

  lemma StoredExtends(sha: HashFn, a: Table, b: Table, u: set<Node>)
    requires Stored(sha, a, u) && Extends(a, b)
    ensures Stored(sha, b, u)
  {
  }

  lemma TreeHashEmpty(sha: HashFn, u: set<Node>, t: Tree)
    requires Separated(sha, u) && NodesOf(sha, t) <= u
    ensures TreeHash(sha, t) == EMPTY_HASH <==> t == Nil
  {
  }

  // ---------------------------------------------------------------- insertion

  function Store(sha: HashFn, nodes: Table, n: Node): (Table, Digest) {
    (nodes[NodeHash(sha, n) := n], NodeHash(sha, n))
  }

  /** `put_recursive`: the new table and the new hash of the subtree. */
  function PutRec(sha: HashFn, nodes: Table, h: Digest, k: Digest, v: Digest, depth: nat): (Table, Digest)
    requires depth <= 256
    decreases 256 - depth
  {
    if depth == 256 || h == EMPTY_HASH || h !in nodes then Store(sha, nodes, Leaf(k, v)) else
      match nodes[h]
      case Empty => Store(sha, nodes, Leaf(k, v))
      case Leaf(k2, v2) =>
        if k2 == k then Store(sha, nodes, Leaf(k, v))
        else
          var kept := Store(sha, nodes, Leaf(k2, v2));
          if Bit(k2, depth) == Bit(k, depth) then
            var child := PutRec(sha, kept.0, kept.1, k, v, depth + 1);
            Store(sha, child.0, if Bit(k, depth) then Internal(EMPTY_HASH, child.1) else Internal(child.1, EMPTY_HASH))
          else
            var leaf := Store(sha, kept.0, Leaf(k, v));
            Store(sha, leaf.0, if Bit(k, depth) then Internal(kept.1, leaf.1) else Internal(leaf.1, kept.1))
      case Internal(l, r) =>
        if Bit(k, depth) then
          var child := PutRec(sha, nodes, r, k, v, depth + 1);
          Store(sha, child.0, Internal(l, child.1))
        else
          var child := PutRec(sha, nodes, l, k, v, depth + 1);
          Store(sha, child.0, Internal(child.1, r))
  }

  /** What an insertion leaves behind: the updated tree stored, nothing lost. */
  ghost predicate Put(sha: HashFn, u: set<Node>, nodes: Table, r: (Table, Digest), t: Tree) {
    && Addressed(sha, r.0, u) && Extends(nodes, r.0)
    && Stored(sha, r.0, NodesOf(sha, t)) && r.1 == TreeHash(sha, t)
  }

  lemma PutLeaf(sha: HashFn, u: set<Node>, nodes: Table, k: Digest, v: Digest)
    requires Separated(sha, u) && Addressed(sha, nodes, u) && Leaf(k, v) in u
    ensures Put(sha, u, nodes, Store(sha, nodes, Leaf(k, v)), Tip(k, v))
  {
    StoreKeeps(sha, nodes, u, Leaf(k, v));
  }

  /** Storing the parent of two stored trees stores the fork. */
  lemma PutParent(sha: HashFn, u: set<Node>, nodes: Table, mid: Table, l: Tree, r: Tree)
    requires Separated(sha, u) && Addressed(sha, mid, u) && Extends(nodes, mid)
    requires Stored(sha, mid, NodesOf(sha, l)) && Stored(sha, mid, NodesOf(sha, r))
    requires NodesOf(sha, Fork(l, r)) <= u
    ensures Put(sha, u, nodes, Store(sha, mid, Internal(TreeHash(sha, l), TreeHash(sha, r))), Fork(l, r))
  {
    hide Separated, Addressed, NodeHash;
    var n := Internal(TreeHash(sha, l), TreeHash(sha, r));
    StoreKeeps(sha, mid, u, n);
    StoredExtends(sha, mid, mid[NodeHash(sha, n) := n], NodesOf(sha, l));
    StoredExtends(sha, mid, mid[NodeHash(sha, n) := n], NodesOf(sha, r));
  }

  /** Insertion on the table does what insertion on the tree does. */
  lemma {:induction false} PutRefines(sha: HashFn, u: set<Node>, nodes: Table, t: Tree, k: Digest, v: Digest,
                                      depth: nat)
    requires depth <= 256 && Separated(sha, u) && Addressed(sha, nodes, u)
    requires Stored(sha, nodes, NodesOf(sha, t)) && NodesOf(sha, t) <= u
    requires NodesOf(sha, TreePut(t, k, v, depth)) <= u
    ensures Put(sha, u, nodes, PutRec(sha, nodes, TreeHash(sha, t), k, v, depth), TreePut(t, k, v, depth))
    decreases 256 - depth
  {
    hide Separated, Addressed, Stored, Extends, Bit, NodeHash;
    TreeHashEmpty(sha, u, t);
    if depth == 256 || t.Nil? {
      PutLeaf(sha, u, nodes, k, v);
    } else if t.Tip? {
      PutRefinesTip(sha, u, nodes, t.key, t.value, k, v, depth);
    } else {
      PutRefinesFork(sha, u, nodes, t.left, t.right, k, v, depth);
    }
  }

  lemma {:induction false} PutRefinesFork(sha: HashFn, u: set<Node>, nodes: Table, l: Tree, r: Tree, k: Digest,
                                          v: Digest, depth: nat)
    requires depth < 256 && Separated(sha, u) && Addressed(sha, nodes, u)
    requires Stored(sha, nodes, NodesOf(sha, Fork(l, r))) && NodesOf(sha, Fork(l, r)) <= u
    requires NodesOf(sha, TreePut(Fork(l, r), k, v, depth)) <= u
    ensures Put(sha, u, nodes, PutRec(sha, nodes, TreeHash(sha, Fork(l, r)), k, v, depth),
            TreePut(Fork(l, r), k, v, depth))
    decreases 256 - depth, 0
  {
    hide Separated, Addressed, Stored, Extends, Bit, NodeHash, TreePut;
    var n := Internal(TreeHash(sha, l), TreeHash(sha, r));
    StoredNode(sha, u, nodes, NodesOf(sha, Fork(l, r)), n);
    StoredParts(sha, nodes, l, r);
    PutFork(l, r, k, v, depth);
    if Bit(k, depth) {
      PutRefines(sha, u, nodes, r, k, v, depth + 1);
      var child := PutRec(sha, nodes, TreeHash(sha, r), k, v, depth + 1);
      StoredExtends(sha, nodes, child.0, NodesOf(sha, l));
      PutParent(sha, u, nodes, child.0, l, TreePut(r, k, v, depth + 1));
    } else {
      PutRefines(sha, u, nodes, l, k, v, depth + 1);
      var child := PutRec(sha, nodes, TreeHash(sha, l), k, v, depth + 1);
      StoredExtends(sha, nodes, child.0, NodesOf(sha, r));
      PutParent(sha, u, nodes, child.0, TreePut(l, k, v, depth + 1), r);
    }
  }

  lemma StoredNode(sha: HashFn, u: set<Node>, nodes: Table, held: set<Node>, n: Node)
    requires Separated(sha, u) && Stored(sha, nodes, held) && held <= u && n in held
    ensures NodeHash(sha, n) != EMPTY_HASH && NodeHash(sha, n) in nodes && nodes[NodeHash(sha, n)] == n
  {
  }

  lemma StoredParts(sha: HashFn, nodes: Table, l: Tree, r: Tree)
    requires Stored(sha, nodes, NodesOf(sha, Fork(l, r)))
    ensures Stored(sha, nodes, NodesOf(sha, l)) && Stored(sha, nodes, NodesOf(sha, r))
  {
    assert NodesOf(sha, l) <= NodesOf(sha, Fork(l, r)) && NodesOf(sha, r) <= NodesOf(sha, Fork(l, r));
  }

  lemma {:induction false} PutRefinesTip(sha: HashFn, u: set<Node>, nodes: Table, k2: Digest, v2: Digest, k: Digest,
                                         v: Digest, depth: nat)
    requires depth < 256 && Separated(sha, u) && Addressed(sha, nodes, u)
    requires Stored(sha, nodes, {Leaf(k2, v2)}) && Leaf(k2, v2) in u
    requires NodesOf(sha, TreePut(Tip(k2, v2), k, v, depth)) <= u
    ensures Put(sha, u, nodes, PutRec(sha, nodes, NodeHash(sha, Leaf(k2, v2)), k, v, depth),
            TreePut(Tip(k2, v2), k, v, depth))
    decreases 256 - depth, 0
  {
    hide Separated, Addressed, Stored, Extends, Bit, NodeHash;
    var n := Leaf(k2, v2);
    StoredNode(sha, u, nodes, {n}, n);
    if k2 == k {
      PutLeaf(sha, u, nodes, k, v);
    } else {
      PutTip(k2, v2, k, v, depth);
      PutLeaf(sha, u, nodes, k2, v2);
      var kept := Store(sha, nodes, n);
      hide TreePut, Store;
      if Bit(k2, depth) == Bit(k, depth) {
        PutRefines(sha, u, kept.0, Tip(k2, v2), k, v, depth + 1);
        var child := PutRec(sha, kept.0, kept.1, k, v, depth + 1);
        var t := TreePut(Tip(k2, v2), k, v, depth + 1);
        ExtendsTwice(nodes, kept.0, child.0);
        StoredNothing(sha, child.0);
        if Bit(k, depth) {
          PutParent(sha, u, nodes, child.0, Nil, t);
        } else {
          PutParent(sha, u, nodes, child.0, t, Nil);
        }
      } else {
        PutLeaf(sha, u, kept.0, k, v);
        var leaf := Store(sha, kept.0, Leaf(k, v));
        ExtendsTwice(nodes, kept.0, leaf.0);
        StoredExtends(sha, kept.0, leaf.0, {n});
        if Bit(k, depth) {
          PutParent(sha, u, nodes, leaf.0, Tip(k2, v2), Tip(k, v));
        } else {
          PutParent(sha, u, nodes, leaf.0, Tip(k, v), Tip(k2, v2));
        }
      }
    }
  }

  lemma ExtendsTwice(a: Table, b: Table, c: Table)
    requires Extends(a, b) && Extends(b, c)
    ensures Extends(a, c)
  {
  }

  lemma StoredNothing(sha: HashFn, nodes: Table)
    ensures Stored(sha, nodes, {})
  {
  }

  // ---------------------------------------------------------------- lookup

  /** `get_recursive`. A fork at depth 256 would index past the path; no stored tree has one. */
  function GetRec(nodes: Table, h: Digest, k: Digest, depth: nat): Option<Digest>
    requires depth <= 256
    decreases 256 - depth
  {
    if h == EMPTY_HASH || h !in nodes then None else
      match nodes[h]
      case Leaf(k2, v) => if k2 == k then Some(v) else None
      case Internal(l, r) =>
        if depth == 256 then None
        else if Bit(k, depth) then GetRec(nodes, r, k, depth + 1) else GetRec(nodes, l, k, depth + 1)
      case Empty => None
  }

  lemma {:induction false} GetRefines(sha: HashFn, u: set<Node>, nodes: Table, t: Tree, k: Digest, depth: nat)
    requires depth <= 256 && Separated(sha, u) && Stored(sha, nodes, NodesOf(sha, t)) && NodesOf(sha, t) <= u
    ensures GetRec(nodes, TreeHash(sha, t), k, depth) == TreeGet(t, k, depth)
    decreases 256 - depth
  {
    hide Separated, Stored, Bit, NodeHash;
    TreeHashEmpty(sha, u, t);
    match t {
      case Nil =>
      case Tip(k2, v) => StoredNode(sha, u, nodes, NodesOf(sha, t), Leaf(k2, v));
      case Fork(l, r) =>
        StoredNode(sha, u, nodes, NodesOf(sha, t), Internal(TreeHash(sha, l), TreeHash(sha, r)));
        StoredParts(sha, nodes, l, r);
        if depth < 256 {
          if Bit(k, depth) {
            GetRefines(sha, u, nodes, r, k, depth + 1);
          } else {
            GetRefines(sha, u, nodes, l, k, depth + 1);
          }
        }
    }
  }

  // ---------------------------------------------------------------- inclusion proofs

  /** Sibling hashes on the way from the root, each with its depth. */
  type Siblings = s: seq<(nat, Digest)> | forall i :: 0 <= i < |s| ==> s[i].0 < 256

  function CollectSiblings(nodes: Table, h: Digest, k: Digest, depth: nat): Siblings
    requires depth <= 256
    decreases 256 - depth
  {
    if h == EMPTY_HASH || depth == 256 || h !in nodes then [] else
      match nodes[h]
      case Internal(l, r) =>
        if Bit(k, depth) then [(depth, l)] + CollectSiblings(nodes, r, k, depth + 1)
        else [(depth, r)] + CollectSiblings(nodes, l, k, depth + 1)
      case Leaf(_, _) => []
      case Empty => []
  }

  function ParentNode(k: Digest, sibling: (nat, Digest), child: Digest): Node
    requires sibling.0 < 256
  {
    if Bit(k, sibling.0) then Internal(sibling.1, child) else Internal(child, sibling.1)
  }

  /** The root hash that a leaf hash and its siblings add up to. */
  function Fold(sha: HashFn, k: Digest, siblings: Siblings, leaf: Digest): Digest {
    if siblings == [] then leaf
    else NodeHash(sha, ParentNode(k, siblings[0], Fold(sha, k, siblings[1..], leaf)))
  }

  /** Every node hashed while checking a proof. */
  ghost function FoldNodes(sha: HashFn, k: Digest, siblings: Siblings, v: Digest): set<Node> {
    if siblings == [] then {Leaf(k, v)}
    else {ParentNode(k, siblings[0], Fold(sha, k, siblings[1..], NodeHash(sha, Leaf(k, v))))} +
         FoldNodes(sha, k, siblings[1..], v)
  }

  /** `verify_inclusion`: fold from the deepest sibling up and compare with the root. */
  method VerifyInclusion(sha: HashFn, k: Digest, siblings: Siblings, root: Digest, v: Digest) returns (r: bool)
    ensures r <==> Fold(sha, k, siblings, NodeHash(sha, Leaf(k, v))) == root
  {
    hide NodeHash;
    var current := NodeHash(sha, Leaf(k, v));
    var i := |siblings|;
    while i > 0
      invariant 0 <= i <= |siblings|
      invariant current == Fold(sha, k, siblings[i..], NodeHash(sha, Leaf(k, v)))
    {
      i := i - 1;
      assert siblings[i..][0] == siblings[i] && siblings[i..][1..] == siblings[i + 1..];
      current := NodeHash(sha, ParentNode(k, siblings[i], current));
    }
    assert siblings[0..] == siblings;
    r := current == root;
  }

  /** The collected proof of a present key folds to the root. */
  lemma {:induction false} ProofComplete(sha: HashFn, u: set<Node>, nodes: Table, t: Tree, k: Digest, v: Digest,
                                         depth: nat)
    requires depth <= 256 && Separated(sha, u) && Stored(sha, nodes, NodesOf(sha, t)) && NodesOf(sha, t) <= u
    requires TreeGet(t, k, depth) == Some(v)
    ensures Fold(sha, k, CollectSiblings(nodes, TreeHash(sha, t), k, depth), NodeHash(sha, Leaf(k, v))) ==
            TreeHash(sha, t)
    decreases 256 - depth
  {
    hide Separated, Stored, Bit, NodeHash;
    TreeHashEmpty(sha, u, t);
    if t.Tip? {
      StoredNode(sha, u, nodes, NodesOf(sha, t), Leaf(t.key, t.value));
    } else {
      var l, r := t.left, t.right;
      StoredNode(sha, u, nodes, NodesOf(sha, t), Internal(TreeHash(sha, l), TreeHash(sha, r)));
      StoredParts(sha, nodes, l, r);
      var down := if Bit(k, depth) then r else l;
      var rest := CollectSiblings(nodes, TreeHash(sha, down), k, depth + 1);
      ProofComplete(sha, u, nodes, down, k, v, depth + 1);
      var all := CollectSiblings(nodes, TreeHash(sha, t), k, depth);
      assert all[1..] == rest;
    }
  }

  /** Any siblings whatsoever that fold to the root exhibit a leaf of the tree. */
  lemma {:induction false} ProofSound(sha: HashFn, u: set<Node>, t: Tree, k: Digest, v: Digest, siblings: Siblings)
    requires Separated(sha, u) && NodesOf(sha, t) <= u && FoldNodes(sha, k, siblings, v) <= u
    requires Fold(sha, k, siblings, NodeHash(sha, Leaf(k, v))) == TreeHash(sha, t)
    ensures HasTip(t, k, v)
  {
    hide Separated, NodeHash, Bit;
    var n := TopNode(sha, k, siblings, v);
    TopIsRoot(sha, u, t, n);
    if siblings != [] {
      var rest := siblings[1..];
      var below := Fold(sha, k, rest, NodeHash(sha, Leaf(k, v)));
      if Bit(k, siblings[0].0) {
        ProofSound(sha, u, t.right, k, v, rest);
      } else {
        ProofSound(sha, u, t.left, k, v, rest);
      }
    }
  }

  ghost function TopNode(sha: HashFn, k: Digest, siblings: Siblings, v: Digest): (n: Node)
    ensures n in FoldNodes(sha, k, siblings, v) && !n.Empty?
    ensures NodeHash(sha, n) == Fold(sha, k, siblings, NodeHash(sha, Leaf(k, v)))
  {
    if siblings == [] then Leaf(k, v)
    else ParentNode(k, siblings[0], Fold(sha, k, siblings[1..], NodeHash(sha, Leaf(k, v))))
  }

  lemma TopIsRoot(sha: HashFn, u: set<Node>, t: Tree, n: Node)
    requires Separated(sha, u) && NodesOf(sha, t) <= u && n in u && NodeHash(sha, n) == TreeHash(sha, t)
    ensures match t
            case Nil => false
            case Tip(k, v) => n == Leaf(k, v)
            case Fork(l, r) => n == Internal(TreeHash(sha, l), TreeHash(sha, r))
  {
  }
}
