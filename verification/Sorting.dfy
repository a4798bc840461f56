/** Stable sorting by a comparison, standing for `sort` and `sort_by_key`. */
module Sorting {

  ghost predicate TotalPreorder<T(!new)>(leq: (T, T) -> bool) {
    && (forall a, b :: leq(a, b) || leq(b, a))
    && (forall a, b, c :: leq(a, b) && leq(b, c) ==> leq(a, c))
  }

  ghost predicate Sorted<T>(leq: (T, T) -> bool, s: seq<T>) {
    forall i, j :: 0 <= i < j < |s| ==> leq(s[i], s[j])
  }

  function Insert<T>(leq: (T, T) -> bool, x: T, s: seq<T>): seq<T> {
    if s == [] then [x]
    else if leq(x, s[0]) then [x] + s
    else [s[0]] + Insert(leq, x, s[1..])
  }

  function Sort<T>(leq: (T, T) -> bool, s: seq<T>): seq<T> {
    if s == [] then [] else Insert(leq, s[0], Sort(leq, s[1..]))
  }

  lemma {:induction false} InsertSorts<T(!new)>(leq: (T, T) -> bool, x: T, s: seq<T>)
    requires TotalPreorder(leq) && Sorted(leq, s)
    ensures Sorted(leq, Insert(leq, x, s))
    ensures multiset(Insert(leq, x, s)) == multiset{x} + multiset(s)
  {
    if s != [] {
      assert s == [s[0]] + s[1..];
      if !leq(x, s[0]) {
        InsertSorts(leq, x, s[1..]);
        PushFirst(leq, s[0], Insert(leq, x, s[1..]), x, s[1..]);
      }
    }
  }

  lemma PushFirst<T(!new)>(leq: (T, T) -> bool, head: T, rest: seq<T>, x: T, tail: seq<T>)
    requires Sorted(leq, rest) && multiset(rest) == multiset{x} + multiset(tail)
    requires leq(head, x) && forall y :: y in tail ==> leq(head, y)
    ensures Sorted(leq, [head] + rest)
  {
    forall j | 0 <= j < |rest| ensures leq(head, rest[j]) {
      assert rest[j] in multiset(rest);
    }
  }

  /** Sorting yields an ascending rearrangement. */
  lemma {:induction false} SortSorts<T(!new)>(leq: (T, T) -> bool, s: seq<T>)
    requires TotalPreorder(leq)
    ensures Sorted(leq, Sort(leq, s)) && multiset(Sort(leq, s)) == multiset(s)
    ensures |Sort(leq, s)| == |s|
  {
    if s != [] {
      SortSorts(leq, s[1..]);
      InsertSorts(leq, s[0], Sort(leq, s[1..]));
      assert s == [s[0]] + s[1..];
    }
    assert |multiset(Sort(leq, s))| == |multiset(s)|;
  }

  ghost predicate NoTies<T>(leq: (T, T) -> bool, s: seq<T>) {
    forall x, y :: x in s && y in s && leq(x, y) && leq(y, x) ==> x == y
  }

  lemma TailKeeps<T(!new)>(leq: (T, T) -> bool, s: seq<T>)
    requires s != [] && Sorted(leq, s)
    ensures Sorted(leq, s[1..]) && (NoTies(leq, s) ==> NoTies(leq, s[1..]))
    ensures multiset(s[1..]) == multiset(s) - multiset{s[0]}
  {
    assert s == [s[0]] + s[1..];
  }

  /** There is only one ascending arrangement when no two elements tie. */
  lemma {:induction false} SortedUnique<T(!new)>(leq: (T, T) -> bool, a: seq<T>, b: seq<T>)
    requires TotalPreorder(leq) && Sorted(leq, a) && Sorted(leq, b)
    requires multiset(a) == multiset(b)
    requires NoTies(leq, a)
    ensures a == b
  {
    hide Sorted, TotalPreorder, NoTies;
    assert |multiset(a)| == |multiset(b)|;
    if a != [] {
      HeadsMatch(leq, a, b);
      TailKeeps(leq, a);
      TailKeeps(leq, b);
      assert a == [a[0]] + a[1..] && b == [b[0]] + b[1..];
      SortedUnique(leq, a[1..], b[1..]);
    }
  }

  lemma HeadsMatch<T(!new)>(leq: (T, T) -> bool, a: seq<T>, b: seq<T>)
    requires TotalPreorder(leq) && Sorted(leq, a) && Sorted(leq, b)
    requires a != [] && b != [] && multiset(a) == multiset(b)
    requires NoTies(leq, a)
    ensures a[0] == b[0]
  {
    assert a[0] in multiset(b) && b[0] in multiset(a);
  }

  lemma OccursTwice<T>(s: seq<T>, i: nat, j: nat)
    requires i < j < |s| && s[i] == s[j]
    ensures multiset(s)[s[i]] >= 2
  {
    assert s == s[..i] + [s[i]] + s[i + 1..j] + [s[j]] + s[j + 1..];
  }

  // ---------------------------------------------------------------- lexicographic order

  /** The order of byte arrays and limb arrays: the first difference decides. */
  predicate LexLeq(a: seq<int>, b: seq<int>) {
    a == [] || (b != [] && (a[0] < b[0] || (a[0] == b[0] && LexLeq(a[1..], b[1..]))))
  }

  lemma {:induction false} LexTotal(a: seq<int>, b: seq<int>)
    ensures LexLeq(a, b) || LexLeq(b, a)
    ensures LexLeq(a, b) && LexLeq(b, a) ==> a == b
  {
    if a != [] && b != [] && a[0] == b[0] {
      LexTotal(a[1..], b[1..]);
      assert a == [a[0]] + a[1..] && b == [b[0]] + b[1..];
    }
  }

  lemma {:induction false} LexTransitive(a: seq<int>, b: seq<int>, c: seq<int>)
    requires LexLeq(a, b) && LexLeq(b, c)
    ensures LexLeq(a, c)
  {
    if a != [] && a[0] == b[0] == c[0] {
      LexTransitive(a[1..], b[1..], c[1..]);
    }
  }

  /** `a` and `b` first differ at place `p`, where `a` has the smaller entry. */
  ghost predicate SplitsAt(a: seq<int>, b: seq<int>, p: nat) {
    p < |a| && p < |b| && a[..p] == b[..p] && a[p] < b[p]
  }

  ghost predicate Before(a: seq<int>, b: seq<int>) {
    exists p :: SplitsAt(a, b, p)
  }

  lemma SplitHeads(a: seq<int>, b: seq<int>, p: nat)
    requires SplitsAt(a, b, p) && p > 0
    ensures a[0] == b[0]
  {
    assert a[..p][0] == b[..p][0];
  }

  /** The recursive order is the one decided by the first difference, a prefix coming first. */
  lemma {:induction false} LexMeans(a: seq<int>, b: seq<int>)
    ensures LexLeq(a, b) <==> a <= b || Before(a, b)
  {
    if a != [] && b != [] {
      if a[0] == b[0] {
        LexMeans(a[1..], b[1..]);
        SplitsDeeper(a, b);
        assert a == [a[0]] + a[1..] && b == [b[0]] + b[1..];
      } else {
        assert a[0] < b[0] ==> SplitsAt(a, b, 0);
        forall p: nat | SplitsAt(a, b, p) ensures p == 0 {
          if p > 0 {
            SplitHeads(a, b, p);
          }
        }
      }
    }
  }

  lemma SplitsDeeper(a: seq<int>, b: seq<int>)
    requires a != [] && b != [] && a[0] == b[0]
    ensures Before(a, b) <==> Before(a[1..], b[1..])
  {
    if Before(a, b) {
      var p: nat :| SplitsAt(a, b, p);
      assert a[1..][..p - 1] == a[..p][1..] && b[1..][..p - 1] == b[..p][1..];
      assert SplitsAt(a[1..], b[1..], p - 1);
    }
    if Before(a[1..], b[1..]) {
      var p: nat :| SplitsAt(a[1..], b[1..], p);
      assert a[..p + 1] == [a[0]] + a[1..][..p] && b[..p + 1] == [b[0]] + b[1..][..p];
      assert SplitsAt(a, b, p + 1);
    }
  }

  /** On sequences of one length the order is strict and total. */
  lemma BeforeTotal(a: seq<int>, b: seq<int>)
    requires |a| == |b|
    ensures Before(a, b) || Before(b, a) || a == b
    ensures !(Before(a, b) && Before(b, a)) && !Before(a, a)
    ensures LexLeq(a, b) <==> a == b || Before(a, b)
  {
    LexMeans(a, b);
    LexMeans(b, a);
    LexTotal(a, b);
  }
}
