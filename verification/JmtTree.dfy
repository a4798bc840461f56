/** The tree a set of key-value pairs determines, independently of any node table. */
module JmtTree {
  import opened Common
  import opened Sorting

  /** A right shift, one bit at a time. */
  function Shr(x: nat, n: nat): nat {
    if n == 0 then x else Shr(x / 2, n - 1)
  }

  /** Bit `pos` of a path, bit 0 being the most significant of byte 0. */
  predicate Bit(key: Digest, pos: nat)
    requires pos < 256
  {
    Shr(key[pos / 8], 7 - pos % 8) % 2 == 1
  }

  lemma {:induction false} ShrBits(x: nat, y: nat, n: nat)
    requires forall j :: 0 <= j < n ==> Shr(x, j) % 2 == Shr(y, j) % 2
    requires Shr(x, n) == Shr(y, n)
    ensures x == y
  {
    if n > 0 {
      forall j | 0 <= j < n - 1 ensures Shr(x / 2, j) % 2 == Shr(y / 2, j) % 2 {
        assert Shr(x, j + 1) % 2 == Shr(y, j + 1) % 2;
      }
      ShrBits(x / 2, y / 2, n - 1);
      assert Shr(x, 0) % 2 == Shr(y, 0) % 2;
    }
  }

  function Pow2(n: nat): nat {
    if n == 0 then 1 else 2 * Pow2(n - 1)
  }

  lemma {:induction false} ShrSmall(x: nat, n: nat)
    requires x < Pow2(n)
    ensures Shr(x, n) == 0
  {
    if n > 0 {
      ShrSmall(x / 2, n - 1);
    }
  }

  lemma ByteShiftsOut(x: Byte)
    ensures Shr(x, 8) == 0
  {
    assert Pow2(4) == 16 && Pow2(8) == 256;
    ShrSmall(x, 8);
  }

  lemma BitOfByte(key: Digest, i: nat, j: nat)
    requires i < 32 && j < 8
    ensures Bit(key, 8 * i + (7 - j)) == (Shr(key[i], j) % 2 == 1)
  {
    var pos := 8 * i + (7 - j);
    assert pos / 8 == i && 7 - pos % 8 == j;
  }

  lemma ShrStep(x: nat, n: nat)
    ensures Shr(x, n + 1) == Shr(x, n) / 2
  {
    if n > 0 {
      ShrStep(x / 2, n - 1);
    }
  }

  /** Two paths that agree on all 256 bits are the same path. */
  lemma BitsDetermine(a: Digest, b: Digest)
    requires forall i :: 0 <= i < 256 ==> Bit(a, i) == Bit(b, i)
    ensures a == b
  {
    BytesAgree(a, b, 256);
    assert a[..32] == a && b[..32] == b;
  }

  /** Agreeing on the leading bits, two paths agree on the bytes these fill. */
  lemma BytesAgree(a: Digest, b: Digest, depth: nat)
    requires depth <= 256 && forall i :: 0 <= i < depth ==> Bit(a, i) == Bit(b, i)
    ensures a[..depth / 8] == b[..depth / 8]
  {
    forall i | 0 <= i < depth / 8 ensures a[i] == b[i] {
      forall j | 0 <= j < 8 ensures Shr(a[i], j) % 2 == Shr(b[i], j) % 2 {
        BitOfByte(a, i, j);
        BitOfByte(b, i, j);
        assert Bit(a, 8 * i + (7 - j)) == Bit(b, 8 * i + (7 - j));
      }
      ByteShiftsOut(a[i]);
      ByteShiftsOut(b[i]);
      ShrBits(a[i], b[i], 8);
    }
  }

  lemma {:induction false} ShrLess(x: nat, y: nat, n: nat)
    requires Shr(x, n + 1) == Shr(y, n + 1) && Shr(x, n) % 2 == 0 && Shr(y, n) % 2 == 1
    ensures x < y
  {
    if n > 0 {
      ShrLess(x / 2, y / 2, n - 1);
    }
  }

  lemma {:induction false} HighBitsAgree(x: Byte, y: Byte, n: nat)
    requires n <= 8 && forall j :: n <= j < 8 ==> Shr(x, j) % 2 == Shr(y, j) % 2
    ensures Shr(x, n) == Shr(y, n)
    decreases 8 - n
  {
    if n == 8 {
      ByteShiftsOut(x);
      ByteShiftsOut(y);
    } else {
      HighBitsAgree(x, y, n + 1);
      ShrStep(x, n);
      ShrStep(y, n);
    }
  }

  /** The path with the zero at the first differing bit comes first byte for byte. */
  lemma BitsOrder(a: Digest, b: Digest, depth: nat)
    requires depth < 256 && (forall i :: 0 <= i < depth ==> Bit(a, i) == Bit(b, i))
    requires !Bit(a, depth) && Bit(b, depth)
    ensures Before(a, b)
  {
    var p, n := depth / 8, 7 - depth % 8;
    BytesAgree(a, b, depth);
    forall j | n + 1 <= j < 8 ensures Shr(a[p], j) % 2 == Shr(b[p], j) % 2 {
      BitOfByte(a, p, j);
      BitOfByte(b, p, j);
      assert Bit(a, 8 * p + (7 - j)) == Bit(b, 8 * p + (7 - j));
    }
    HighBitsAgree(a[p], b[p], n + 1);
    ShrLess(a[p], b[p], n);
    assert SplitsAt(a, b, p);
  }

  /** An entry table of the authenticated map: path to value hash. */
  type Entries = map<Digest, Digest>

  datatype Tree = Nil | Tip(key: Digest, value: Digest) | Fork(left: Tree, right: Tree)

  // ---------------------------------------------------------------- the canonical tree

  ghost function Side(m: Entries, depth: nat, bit: bool): Entries
    requires depth < 256
  {
    map k | k in m && Bit(k, depth) == bit :: m[k]
  }

  /** No key is an empty tree, one key a leaf, and more keys a fork on the next bit. */
  ghost function Canon(m: Entries, depth: nat): Tree
    requires depth <= 256
    decreases 256 - depth
  {
    if |m| == 0 then Nil
    else if |m| == 1 then var k :| k in m; Tip(k, m[k])
    else if depth == 256 then Nil
    else Fork(Canon(Side(m, depth, false), depth + 1), Canon(Side(m, depth, true), depth + 1))
  }

  /** The keys agree on their first `depth` bits. */
  ghost predicate Aligned(s: set<Digest>, depth: nat)
    requires depth <= 256
  {
    forall a, b, i :: a in s && b in s && 0 <= i < depth ==> Bit(a, i) == Bit(b, i)
  }

  lemma AlignedDeeper(s: set<Digest>, t: set<Digest>, depth: nat, bit: bool)
    requires depth < 256 && Aligned(s, depth) && t <= s
    requires forall k :: k in t ==> Bit(k, depth) == bit
    ensures Aligned(t, depth + 1)
  {
    forall a, b, i | a in t && b in t && 0 <= i < depth + 1 ensures Bit(a, i) == Bit(b, i) {
      assert a in s && b in s;
      assert i < depth || i == depth;
    }
  }

  lemma AlignedAtBottom(s: set<Digest>, a: Digest, b: Digest)
    requires Aligned(s, 256) && a in s && b in s
    ensures a == b
  {
    BitsDetermine(a, b);
  }

  /** Two different keys cannot be aligned all the way down. */
  lemma DistinctAbove(s: set<Digest>, depth: nat, a: Digest, b: Digest)
    requires depth <= 256 && Aligned(s, depth) && a in s && b in s && a != b
    ensures depth < 256
  {
    if depth == 256 {
      AlignedAtBottom(s, a, b);
    }
  }

  lemma TwoKeys(m: Entries)
    requires |m| >= 2
    ensures exists a, b :: a in m && b in m && a != b
  {
    assert |m.Keys| == |m|;
    var a :| a in m;
    assert m.Keys - {a} != {} by {
      assert |m.Keys - {a}| == |m.Keys| - 1;
    }
    var b :| b in m.Keys - {a};
  }

  lemma OneKey(m: Entries, k: Digest)
    requires k in m && |m| == 1
    ensures m == map[k := m[k]]
  {
    assert |m.Keys| == 1;
    forall x | x in m ensures x == k {
      if x != k {
        assert {x, k} <= m.Keys;
        SubsetSize({x, k}, m.Keys);
      }
    }
  }

  lemma {:induction false} SubsetSize<T>(a: set<T>, b: set<T>)
    requires a <= b
    ensures |a| <= |b|
  {
    if a != {} {
      var x :| x in a;
      SubsetSize(a - {x}, b - {x});
    }
  }

  lemma CanonOne(m: Entries, k: Digest, depth: nat)
    requires depth <= 256 && k in m && |m| == 1
    ensures Canon(m, depth) == Tip(k, m[k])
  {
    OneKey(m, k);
  }

  lemma CanonNone(m: Entries, depth: nat)
    requires depth <= 256 && |m| == 0
    ensures Canon(m, depth) == Nil
  {
  }

  lemma CanonMany(m: Entries, depth: nat)
    requires depth < 256 && |m| >= 2
    ensures Canon(m, depth) == Fork(Canon(Side(m, depth, false), depth + 1), Canon(Side(m, depth, true), depth + 1))
  {
  }

  // ---------------------------------------------------------------- insertion

  /** What inserting does to the tree, branch by branch. */
  function TreePut(t: Tree, k: Digest, v: Digest, depth: nat): Tree
    requires depth <= 256
    decreases 256 - depth
  {
    if depth == 256 then Tip(k, v) else
      match t
      case Nil => Tip(k, v)
      case Tip(k2, v2) =>
        if k2 == k then Tip(k, v)
        else if Bit(k2, depth) == Bit(k, depth) then
          var child := TreePut(t, k, v, depth + 1);
          if Bit(k, depth) then Fork(Nil, child) else Fork(child, Nil)
        else if Bit(k, depth) then Fork(t, Tip(k, v)) else Fork(Tip(k, v), t)
      case Fork(l, r) =>
        if Bit(k, depth) then Fork(l, TreePut(r, k, v, depth + 1)) else Fork(TreePut(l, k, v, depth + 1), r)
  }

  lemma PutFork(l: Tree, r: Tree, k: Digest, v: Digest, depth: nat)
    requires depth < 256
    ensures TreePut(Fork(l, r), k, v, depth) ==
            if Bit(k, depth) then Fork(l, TreePut(r, k, v, depth + 1)) else Fork(TreePut(l, k, v, depth + 1), r)
  {
  }

  lemma PutTip(k2: Digest, v2: Digest, k: Digest, v: Digest, depth: nat)
    requires depth < 256 && k2 != k
    ensures TreePut(Tip(k2, v2), k, v, depth) ==
            if Bit(k2, depth) != Bit(k, depth) then
              if Bit(k, depth) then Fork(Tip(k2, v2), Tip(k, v)) else Fork(Tip(k, v), Tip(k2, v2))
            else
              var child := TreePut(Tip(k2, v2), k, v, depth + 1);
              if Bit(k, depth) then Fork(Nil, child) else Fork(child, Nil)
  {
  }

  lemma SizeAfterPut(m: Entries, k: Digest, v: Digest)
    ensures |m[k := v]| == |m| + if k in m then 0 else 1
  {
    assert m[k := v].Keys == m.Keys + {k};
    assert |m[k := v]| == |m[k := v].Keys| && |m| == |m.Keys|;
  }

  lemma SideAfterPut(m: Entries, k: Digest, v: Digest, depth: nat)
    requires depth < 256
    ensures Side(m[k := v], depth, Bit(k, depth)) == Side(m, depth, Bit(k, depth))[k := v]
    ensures Side(m[k := v], depth, !Bit(k, depth)) == Side(m, depth, !Bit(k, depth))
  {
  }

  lemma SideAligned(m: Entries, k: Digest, depth: nat)
    requires depth < 256 && Aligned(m.Keys + {k}, depth)
    ensures Aligned(Side(m, depth, Bit(k, depth)).Keys + {k}, depth + 1)
  {
    AlignedDeeper(m.Keys + {k}, Side(m, depth, Bit(k, depth)).Keys + {k}, depth, Bit(k, depth));
  }

  /** Inserting into the canonical tree gives the canonical tree of the updated map. */
  lemma {:induction false} PutCanon(m: Entries, k: Digest, v: Digest, depth: nat)
    requires depth <= 256 && Aligned(m.Keys + {k}, depth)
    ensures TreePut(Canon(m, depth), k, v, depth) == Canon(m[k := v], depth)
    decreases 256 - depth
  {
    SizeAfterPut(m, k, v);
    if |m| == 0 {
      CanonOne(m[k := v], k, depth);
    } else if |m| == 1 {
      var k2 :| k2 in m;
      CanonOne(m, k2, depth);
      OneKey(m, k2);
      if k2 == k {
        CanonOne(m[k := v], k, depth);
      } else {
        DistinctAbove(m.Keys + {k}, depth, k, k2);
        PutSecond(m, k2, k, v, depth);
      }
    } else {
      TwoKeys(m);
      var a, b :| a in m && b in m && a != b;
      DistinctAbove(m.Keys + {k}, depth, a, b);
      PutMany(m, k, v, depth);
    }
  }

  lemma {:induction false} PutMany(m: Entries, k: Digest, v: Digest, depth: nat)
    requires depth < 256 && Aligned(m.Keys + {k}, depth) && |m| >= 2
    ensures TreePut(Canon(m, depth), k, v, depth) == Canon(m[k := v], depth)
    decreases 256 - depth, 0
  {
    hide Aligned, Canon, Bit, TreePut, Side;
    var bit, m2 := Bit(k, depth), m[k := v];
    assert |m2| >= 2 by {
      SizeAfterPut(m, k, v);
    }
    SideAligned(m, k, depth);
    PutCanon(Side(m, depth, bit), k, v, depth + 1);
    SideAfterPut(m, k, v, depth);
    calc {
      TreePut(Canon(m, depth), k, v, depth);
      { CanonMany(m, depth); }
      TreePut(Fork(Canon(Side(m, depth, false), depth + 1), Canon(Side(m, depth, true), depth + 1)), k, v, depth);
      { PutFork(Canon(Side(m, depth, false), depth + 1), Canon(Side(m, depth, true), depth + 1), k, v, depth); }
      Fork(Canon(Side(m2, depth, false), depth + 1), Canon(Side(m2, depth, true), depth + 1));
      { CanonMany(m2, depth); }
      Canon(m2, depth);
    }
  }

  lemma {:induction false} PutSecond(m: Entries, k2: Digest, k: Digest, v: Digest, depth: nat)
    requires depth < 256 && Aligned(m.Keys + {k}, depth) && k2 != k && k2 in m && m == map[k2 := m[k2]]
    ensures TreePut(Tip(k2, m[k2]), k, v, depth) == Canon(m[k := v], depth)
    decreases 256 - depth, 0
  {
    hide Aligned, Canon, Bit, TreePut, Side;
    var bit, m2, tip := Bit(k, depth), m[k := v], Tip(k2, m[k2]);
    assert |m| == 1 && |m2| == 2 by {
      SizeAfterPut(m, k, v);
    }
    CanonOne(m, k2, depth + 1);
    CanonMany(m2, depth);
    SecondSides(m, k2, k, v, depth);
    PutTip(k2, m[k2], k, v, depth);
    CanonNone(map[], depth + 1);
    if Bit(k2, depth) == bit {
      SideAligned(m, k, depth);
      PutCanon(m, k, v, depth + 1);
    } else {
      CanonOne(map[k := v], k, depth + 1);
    }
  }

  lemma SecondSides(m: Entries, k2: Digest, k: Digest, v: Digest, depth: nat)
    requires depth < 256 && k2 in m && m == map[k2 := m[k2]] && k2 != k
    ensures var bit, m2 := Bit(k, depth), m[k := v];
            if Bit(k2, depth) == bit then
              Side(m, depth, bit) == m && Side(m2, depth, bit) == m2 && Side(m2, depth, !bit) == map[]
            else
              Side(m2, depth, bit) == map[k := v] && Side(m2, depth, !bit) == m
  {
  }

  // ---------------------------------------------------------------- lookup

  function TreeGet(t: Tree, k: Digest, depth: nat): Option<Digest>
    requires depth <= 256
    decreases 256 - depth
  {
    match t
    case Nil => None
    case Tip(k2, v) => if k2 == k then Some(v) else None
    case Fork(l, r) =>
      if depth == 256 then None
      else if Bit(k, depth) then TreeGet(r, k, depth + 1) else TreeGet(l, k, depth + 1)
  }

  /** The canonical tree answers every key as the map does. */
  lemma {:induction false} GetCanon(m: Entries, k: Digest, depth: nat)
    requires depth <= 256 && Aligned(m.Keys + {k}, depth)
    ensures TreeGet(Canon(m, depth), k, depth) == Lookup(m, k)
    decreases 256 - depth
  {
    hide Aligned, Canon, Bit;
    if |m| == 1 {
      var k2 :| k2 in m;
      CanonOne(m, k2, depth);
      OneKey(m, k2);
    } else if |m| >= 2 {
      TwoKeys(m);
      var a, b :| a in m && b in m && a != b;
      DistinctAbove(m.Keys + {k}, depth, a, b);
      CanonMany(m, depth);
      var side := Side(m, depth, Bit(k, depth));
      AlignedDeeper(m.Keys + {k}, side.Keys + {k}, depth, Bit(k, depth));
      GetCanon(side, k, depth + 1);
    } else {
      CanonNone(m, depth);
    }
  }

  ghost predicate HasTip(t: Tree, k: Digest, v: Digest) {
    match t
    case Nil => false
    case Tip(k2, v2) => k2 == k && v2 == v
    case Fork(l, r) => HasTip(l, k, v) || HasTip(r, k, v)
  }

  /** A leaf anywhere in the canonical tree is an entry of the map. */
  lemma {:induction false} TipsAreEntries(m: Entries, k: Digest, v: Digest, depth: nat)
    requires depth <= 256 && HasTip(Canon(m, depth), k, v)
    ensures k in m && m[k] == v
    decreases 256 - depth
  {
    if |m| == 1 {
      var k2 :| k2 in m;
      CanonOne(m, k2, depth);
    } else if |m| >= 2 && depth < 256 {
      CanonMany(m, depth);
      if HasTip(Canon(Side(m, depth, false), depth + 1), k, v) {
        TipsAreEntries(Side(m, depth, false), k, v, depth + 1);
      } else {
        TipsAreEntries(Side(m, depth, true), k, v, depth + 1);
      }
    }
  }

  // ---------------------------------------------------------------- the order of the leaves

  /** The keys of the leaves, left to right. */
  function Leaves(t: Tree): seq<Digest> {
    match t
    case Nil => []
    case Tip(k, _) => [k]
    case Fork(l, r) => Leaves(l) + Leaves(r)
  }

  ghost predicate Ascends(s: seq<Digest>) {
    forall i, j :: 0 <= i < j < |s| ==> Before(s[i], s[j])
  }

  /** The leaves of a map's tree are its keys, in ascending byte order: at every fork the whole left side comes before
      the whole right side. */
  lemma LeavesAscend(m: Entries)
    ensures Ascends(Leaves(Canon(m, 0))) && (set k | k in Leaves(Canon(m, 0))) == m.Keys
  {
    LeavesBelow(m, 0);
  }

  lemma {:induction false} LeavesBelow(m: Entries, depth: nat)
    requires depth <= 256 && Aligned(m.Keys, depth)
    ensures Ascends(Leaves(Canon(m, depth))) && (set k | k in Leaves(Canon(m, depth))) == m.Keys
    decreases 256 - depth
  {
    if |m| == 0 {
      CanonNone(m, depth);
    } else if |m| == 1 {
      var k :| k in m;
      CanonOne(m, k, depth);
      OneKey(m, k);
    } else {
      TwoKeys(m);
      var a, b :| a in m && b in m && a != b;
      DistinctAbove(m.Keys, depth, a, b);
      CanonMany(m, depth);
      var left, right := Side(m, depth, false), Side(m, depth, true);
      AlignedDeeper(m.Keys, left.Keys, depth, false);
      AlignedDeeper(m.Keys, right.Keys, depth, true);
      LeavesBelow(left, depth + 1);
      LeavesBelow(right, depth + 1);
      LeavesJoin(m, depth, Leaves(Canon(left, depth + 1)), Leaves(Canon(right, depth + 1)));
    }
  }

  lemma LeavesJoin(m: Entries, depth: nat, l: seq<Digest>, r: seq<Digest>)
    requires depth < 256 && Aligned(m.Keys, depth) && Ascends(l) && Ascends(r)
    requires (set k | k in l) == Side(m, depth, false).Keys && (set k | k in r) == Side(m, depth, true).Keys
    ensures Ascends(l + r) && (set k | k in l + r) == m.Keys
  {
    var left, right := Side(m, depth, false), Side(m, depth, true);
    forall a, b | a in l && b in r ensures Before(a, b) {
      assert a in left.Keys && b in right.Keys;
      BitsOrder(a, b, depth);
    }
    assert (set k | k in l + r) == (set k | k in l) + (set k | k in r);
    assert left.Keys + right.Keys == m.Keys;
  }
}
