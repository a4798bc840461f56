/** The state root read off the numbers that the paths spell, without bits, nodes or a table. */
module Bisection {
  import opened Common
  import opened Words
  import opened JmtTree
  import opened Jmt
  import opened JmtRuns

  // ---------------------------------------------------------------- paths as numbers

  function Digit(b: bool): nat {
    if b then 1 else 0
  }

  /** The number spelled by the first `n` bits of a path. */
  ghost function Top(k: Digest, n: nat): nat
    requires n <= 256
  {
    if n == 0 then 0 else 2 * Top(k, n - 1) + Digit(Bit(k, n - 1))
  }

  lemma {:induction false} TopOfByte(k: Digest, i: nat, j: nat)
    requires i < 32 && j <= 8
    ensures Top(k, 8 * i + j) == Top(k, 8 * i) * Pow2(j) + Shr(k[i], 8 - j)
  {
    if j == 0 {
      ByteShiftsOut(k[i]);
    } else {
      hide Top, Shr, Bit, Pow2;
      TopOfByte(k, i, j - 1);
      TopStep(k, 8 * i + (j - 1));
      BitOfByte(k, i, 8 - j);
      ShrStep(k[i], 8 - j);
      PowStep(j);
      Doubled(Top(k, 8 * i), Pow2(j - 1));
    }
  }

  lemma TopStep(k: Digest, n: nat)
    requires n < 256
    ensures Top(k, n + 1) == 2 * Top(k, n) + Digit(Bit(k, n))
  {
  }

  lemma PowStep(n: nat)
    requires n > 0
    ensures Pow2(n) == 2 * Pow2(n - 1)
  {
  }

  lemma Doubled(t: nat, p: nat)
    ensures 2 * (t * p) == t * (2 * p)
  {
  }

  lemma {:induction false} TopOfBytes(k: Digest, i: nat)
    requires i <= 32
    ensures Top(k, 8 * i) == FromBe(k[..i])
  {
    if i > 0 {
      TopOfBytes(k, i - 1);
      TopOfByte(k, i - 1, 8);
      assert Pow2(4) == 16 && Pow2(8) == 256;
      assert k[..i][..i - 1] == k[..i - 1];
    }
  }

  /** The leading bits place a path's number within an interval. */
  lemma {:induction false} TopBounds(k: Digest, n: nat)
    requires n <= 256
    ensures Top(k, n) * Pow2(256 - n) <= FromBe(k) < (Top(k, n) + 1) * Pow2(256 - n)
    decreases 256 - n
  {
    if n == 256 {
      TopOfBytes(k, 32);
      assert k[..32] == k;
    } else {
      TopBounds(k, n + 1);
      var t, d, w := Top(k, n), Digit(Bit(k, n)), Pow2(255 - n);
      assert Pow2(256 - n) == 2 * w;
      Halves(t, d, w, FromBe(k));
    }
  }

  lemma Halves(t: nat, d: nat, w: nat, x: nat)
    requires d <= 1 && (2 * t + d) * w <= x < (2 * t + d + 1) * w
    ensures t * (2 * w) <= x < (t + 1) * (2 * w)
    ensures d == 1 <==> x >= t * (2 * w) + w
    ensures (2 * t + d) * w == t * (2 * w) + d * w
  {
    assert (2 * t + d) * w == t * (2 * w) + d * w;
    assert (2 * t + d + 1) * w == t * (2 * w) + d * w + w;
    assert (t + 1) * (2 * w) == t * (2 * w) + 2 * w;
  }

  /** A bit tells in which half of its interval a path's number lies. */
  lemma BitHalves(k: Digest, n: nat)
    requires n < 256
    ensures Bit(k, n) <==> FromBe(k) >= Top(k, n) * Pow2(256 - n) + Pow2(255 - n)
    ensures Top(k, n + 1) * Pow2(255 - n) == Top(k, n) * Pow2(256 - n) + Digit(Bit(k, n)) * Pow2(255 - n)
  {
    TopBounds(k, n + 1);
    assert Pow2(256 - n) == 2 * Pow2(255 - n);
    Halves(Top(k, n), Digit(Bit(k, n)), Pow2(255 - n), FromBe(k));
  }

  // ---------------------------------------------------------------- the root by bisection

  ghost function Lower(m: Entries, mid: nat): Entries {
    map k | k in m && FromBe(k) < mid :: m[k]
  }

  ghost function Upper(m: Entries, mid: nat): Entries {
    map k | k in m && FromBe(k) >= mid :: m[k]
  }

  /** The root of the entries whose numbers lie in the interval of `2^(256 - depth)` numbers from `lo` on. */
  ghost function IntervalRoot(sha: HashFn, m: Entries, lo: nat, depth: nat): Digest
    requires depth <= 256
    decreases 256 - depth
  {
    if |m| == 0 || (|m| > 1 && depth == 256) then seq(32, _ => 0)
    else if |m| == 1 then var k :| k in m; sha([0] + k + m[k])
    else
      var mid := lo + Pow2(255 - depth);
      sha([1] + IntervalRoot(sha, Lower(m, mid), lo, depth + 1) + IntervalRoot(sha, Upper(m, mid), mid, depth + 1))
  }

  lemma IntervalMany(sha: HashFn, m: Entries, lo: nat, depth: nat)
    requires depth < 256 && |m| > 1
    ensures var mid := lo + Pow2(255 - depth);
            IntervalRoot(sha, m, lo, depth) == sha([1] + IntervalRoot(sha, Lower(m, mid), lo, depth + 1) +
            IntervalRoot(sha, Upper(m, mid), mid, depth + 1))
  {
  }

  lemma SmallRoot(sha: HashFn, m: Entries, lo: nat, depth: nat)
    requires |m| <= 1 || depth == 256
    requires depth <= 256
    ensures TreeHash(sha, Canon(m, depth)) == IntervalRoot(sha, m, lo, depth)
  {
    if |m| == 1 {
      var k :| k in m;
      OneKey(m, k);
    }
  }

  lemma HashMany(sha: HashFn, l: Tree, r: Tree)
    ensures TreeHash(sha, Fork(l, r)) == sha([1] + TreeHash(sha, l) + TreeHash(sha, r))
  {
  }

  /** The paths agree on their first `depth` bits, which place them in the interval from `lo` on. */
  ghost predicate Within(m: Entries, lo: nat, depth: nat)
    requires depth <= 256
  {
    forall k :: k in m ==> Top(k, depth) * Pow2(256 - depth) == lo
  }

  lemma SidesAreHalves(m: Entries, lo: nat, depth: nat)
    requires depth < 256 && Within(m, lo, depth)
    ensures var mid := lo + Pow2(255 - depth);
            && Side(m, depth, false) == Lower(m, mid) && Side(m, depth, true) == Upper(m, mid)
            && Within(Lower(m, mid), lo, depth + 1) && Within(Upper(m, mid), mid, depth + 1)
  {
    hide Top, Bit, Pow2, FromBe;
    forall k | k in m
      ensures Bit(k, depth) <==> FromBe(k) >= lo + Pow2(255 - depth)
      ensures Top(k, depth + 1) * Pow2(255 - depth) == lo + Digit(Bit(k, depth)) * Pow2(255 - depth)
    {
      BitHalves(k, depth);
    }
  }

  lemma {:induction false} TreeBisects(sha: HashFn, m: Entries, lo: nat, depth: nat)
    requires depth <= 256 && Within(m, lo, depth)
    ensures TreeHash(sha, Canon(m, depth)) == IntervalRoot(sha, m, lo, depth)
    decreases 256 - depth
  {
    hide Canon, TreeHash, IntervalRoot, Within, Side, Lower, Upper, Pow2;
    if |m| > 1 && depth < 256 {
      var mid := lo + Pow2(255 - depth);
      SidesAreHalves(m, lo, depth);
      TreeBisects(sha, Lower(m, mid), lo, depth + 1);
      TreeBisects(sha, Upper(m, mid), mid, depth + 1);
      CanonMany(m, depth);
      HashMany(sha, Canon(Lower(m, mid), depth + 1), Canon(Upper(m, mid), depth + 1));
      IntervalMany(sha, m, lo, depth);
    } else {
      SmallRoot(sha, m, lo, depth);
    }
  }

  /** After any run of insertions the root is the bisection hash of what was last put under each path: an empty interval
      is 32 zero bytes, a single entry hashes a zero byte, its path and its value, and a fuller interval hashes a one
      byte and its two halves, the lower first. */
  lemma RootBisects(sha: HashFn, puts: seq<Write>)
    requires NoCollision(sha, Preimages(RunNodes(sha, puts)))
    ensures JmtRuns.Run(sha, puts).1 == IntervalRoot(sha, MapOf(puts), 0, 0)
  {
    hide RunNodes, NoCollision, Canon, TreeHash, IntervalRoot, Pow2, JmtRuns.Run, MapOf;
    CanonicalRoot(sha, puts);
    assert Within(MapOf(puts), 0, 0);
    TreeBisects(sha, MapOf(puts), 0, 0);
  }
}
