/** Version chains: insertion, visibility, status marking and clean-up. */
module Versions {
  import opened Common
  import opened Words

  datatype TxStatus = Pending | Committed | Aborted

  /** A value of `None` is a deletion. */
  datatype Version = Version(seqNo: U64, value: Option<U256>, status: TxStatus)

  type Chain = seq<Version>

  ghost predicate Descending(c: Chain) {
    forall i, j :: 0 <= i < j < |c| ==> c[i].seqNo >= c[j].seqNo
  }

  // ---------------------------------------------------------------- insertion

  /** What the library's binary search promises: some equal element, or the place for a new one. */
  ghost predicate InsertionPoint(c: Chain, s: U64, pos: nat) {
    && pos <= |c|
    && (if exists i :: 0 <= i < |c| && c[i].seqNo == s then pos < |c| && c[pos].seqNo == s
        else (forall i :: 0 <= i < pos ==> c[i].seqNo > s) && (forall i :: pos <= i < |c| ==> c[i].seqNo < s))
  }

  type SearchFn = (Chain, U64) -> nat

  /** The library's search, of which only its documented contract is known. */
  ghost predicate SearchOk(search: SearchFn) {
    forall c, s: U64 :: Descending(c) ==> InsertionPoint(c, s, search(c, s))
  }

  function Clamp(n: nat, limit: nat): (r: nat)
    ensures r <= limit && (n <= limit ==> r == n)
  {
    if n <= limit then n else limit
  }

  /** `add_version`. */
  function Add(search: SearchFn, c: Chain, v: Version): Chain {
    var pos := Clamp(search(c, v.seqNo), |c|);
    c[..pos] + [v] + c[pos..]
  }

  /** Insertion keeps the order, whichever admissible place it picks. */
  lemma AddDescends(search: SearchFn, c: Chain, v: Version)
    requires SearchOk(search) && Descending(c)
    ensures Descending(Add(search, c, v))
  {
    var pos := search(c, v.seqNo);
    assert InsertionPoint(c, v.seqNo, pos);
  }

  /** Insertion adds the version and loses none. */
  lemma AddHolds(search: SearchFn, c: Chain, v: Version)
    ensures multiset(Add(search, c, v)) == multiset(c) + multiset{v}
  {
    var pos := Clamp(search(c, v.seqNo), |c|);
    assert c == c[..pos] + c[pos..];
  }

  // ---------------------------------------------------------------- visibility

  predicate Visible(v: Version, reader: U64) {
    v.seqNo < reader && v.status != Aborted
  }

  /** `read_for`: the first visible version. */
  function ReadFor(c: Chain, reader: U64): Option<(Option<U256>, U64)> {
    if c == [] then None
    else if Visible(c[0], reader) then Some((c[0].value, c[0].seqNo))
    else ReadFor(c[1..], reader)
  }

  /** Where `read_for` stops. */
  lemma {:induction false} ReadForFirst(c: Chain, reader: U64) returns (i: nat)
    ensures i <= |c| && forall j :: 0 <= j < i ==> !Visible(c[j], reader)
    ensures if i < |c| then Visible(c[i], reader) && ReadFor(c, reader) == Some((c[i].value, c[i].seqNo))
            else ReadFor(c, reader) == None
  {
    i := 0;
    while i < |c| && !Visible(c[i], reader)
      invariant i <= |c|
      invariant forall j :: 0 <= j < i ==> !Visible(c[j], reader)
      invariant ReadFor(c, reader) == ReadFor(c[i..], reader)
    {
      assert c[i..][1..] == c[i + 1..];
      i := i + 1;
    }
  }

  lemma {:induction false} ReadForIs(c: Chain, reader: U64, i: nat)
    requires i < |c| && Visible(c[i], reader) && forall j :: 0 <= j < i ==> !Visible(c[j], reader)
    ensures ReadFor(c, reader) == Some((c[i].value, c[i].seqNo))
  {
    if i > 0 {
      assert !Visible(c[0], reader);
      forall j | 0 <= j < i - 1 ensures !Visible(c[1..][j], reader) {
        assert c[1..][j] == c[j + 1];
      }
      ReadForIs(c[1..], reader, i - 1);
    }
  }

  /** A read returns the greatest sequence number among the visible versions, and nothing only if there is none. */
  lemma ReadForGreatest(c: Chain, reader: U64)
    requires Descending(c)
    ensures match ReadFor(c, reader)
            case Some((value, s)) =>
              && (exists i :: 0 <= i < |c| && Visible(c[i], reader) && c[i].seqNo == s && c[i].value == value)
              && (forall j :: 0 <= j < |c| && Visible(c[j], reader) ==> c[j].seqNo <= s)
            case None => forall j :: 0 <= j < |c| ==> !Visible(c[j], reader)
  {
    var i := ReadForFirst(c, reader);
  }

  /** A transaction never sees what is written at its own or a later sequence number. */
  lemma OwnWritesUnseen(search: SearchFn, c: Chain, v: Version, reader: U64)
    requires reader <= v.seqNo
    ensures ReadFor(Add(search, c, v), reader) == ReadFor(c, reader)
  {
    var pos := Clamp(search(c, v.seqNo), |c|);
    InsertInvisible(c, pos, v, reader);
  }

  lemma {:induction false} InsertInvisible(c: Chain, pos: nat, v: Version, reader: U64)
    requires pos <= |c| && !Visible(v, reader)
    ensures ReadFor(c[..pos] + [v] + c[pos..], reader) == ReadFor(c, reader)
  {
    var c2 := c[..pos] + [v] + c[pos..];
    if pos == 0 {
      assert c2[1..] == c;
    } else {
      InsertInvisible(c[1..], pos - 1, v, reader);
      assert c2[1..] == c[1..][..pos - 1] + [v] + c[1..][pos - 1..];
    }
  }

  // ---------------------------------------------------------------- marking and clean-up

  /** `mark_committed` and `mark_aborted`: only the first match changes. */
  function Mark(c: Chain, s: U64, status: TxStatus): Chain {
    if c == [] then []
    else if c[0].seqNo == s then [c[0].(status := status)] + c[1..]
    else [c[0]] + Mark(c[1..], s, status)
  }

  function Gc(c: Chain): Chain {
    if c == [] then [] else if c[0].status == Aborted then Gc(c[1..]) else [c[0]] + Gc(c[1..])
  }

  function Without(c: Chain, s: U64): Chain {
    if c == [] then [] else if c[0].seqNo == s then Without(c[1..], s) else [c[0]] + Without(c[1..], s)
  }

  lemma {:induction false} MarkAt(c: Chain, s: U64, status: TxStatus) returns (i: nat)
    ensures i <= |c| && forall j :: 0 <= j < i ==> c[j].seqNo != s
    ensures Mark(c, s, status) == if i < |c| then c[i := c[i].(status := status)] else c
    ensures i < |c| ==> c[i].seqNo == s
  {
    if c == [] || c[0].seqNo == s {
      i := 0;
    } else {
      i := MarkAt(c[1..], s, status);
      i := i + 1;
    }
  }

  /** The first version with its sequence number. */
  predicate FirstOf(c: Chain, j: nat)
    requires j < |c|
  {
    forall i :: 0 <= i < j ==> c[i].seqNo != c[j].seqNo
  }

  /** Marking changes the status of the first version at `s` and nothing else. */
  lemma MarkPoint(c: Chain, s: U64, status: TxStatus, j: nat)
    requires j < |c|
    ensures var c2 := Mark(c, s, status);
            && |c2| == |c| && (FirstOf(c2, j) <==> FirstOf(c, j))
            && c2[j] == if c[j].seqNo == s && FirstOf(c, j) then c[j].(status := status) else c[j]
  {
    var i := MarkAt(c, s, status);
    hide Mark;
    assert forall h :: 0 <= h < |c| ==> Mark(c, s, status)[h].seqNo == c[h].seqNo;
  }

  lemma MarkDescends(c: Chain, s: U64, status: TxStatus)
    requires Descending(c)
    ensures Descending(Mark(c, s, status)) && |Mark(c, s, status)| == |c|
  {
    var i := MarkAt(c, s, status);
  }

  /** Cleaning up changes no read. */
  lemma {:induction false} GcUnseen(c: Chain, reader: U64)
    ensures ReadFor(Gc(c), reader) == ReadFor(c, reader)
  {
    if c != [] {
      GcUnseen(c[1..], reader);
      if c[0].status != Aborted {
        assert Gc(c)[1..] == Gc(c[1..]);
      }
    }
  }

  /** Cleaning up drops the aborted versions and keeps all others. */
  lemma {:induction false} GcKeeps(c: Chain, v: Version)
    ensures multiset(Gc(c))[v] == if v.status == Aborted then 0 else multiset(c)[v]
  {
    if c != [] {
      GcKeeps(c[1..], v);
      assert c == [c[0]] + c[1..];
    }
  }

  lemma {:induction false} GcDescends(c: Chain)
    requires Descending(c)
    ensures Descending(Gc(c)) && forall v :: v in Gc(c) ==> v in c
  {
    if c != [] {
      GcDescends(c[1..]);
      assert c == [c[0]] + c[1..];
      forall j | 0 <= j < |Gc(c[1..])| ensures Gc(c[1..])[j].seqNo <= c[0].seqNo {
        var v := Gc(c[1..])[j];
        assert v in c[1..];
        var i :| 0 <= i < |c[1..]| && c[1..][i] == v;
        assert c[i + 1] == v;
      }
    }
  }

  /** Every version at `s` except the first is aborted. */
  predicate OneLive(c: Chain, s: U64) {
    if c == [] then true
    else if c[0].seqNo == s then forall j :: 0 < j < |c| && c[j].seqNo == s ==> c[j].status == Aborted
    else OneLive(c[1..], s)
  }

  lemma {:induction false} WithoutUnseen(c: Chain, s: U64, reader: U64)
    requires forall j :: 0 <= j < |c| && c[j].seqNo == s ==> !Visible(c[j], reader)
    ensures ReadFor(Without(c, s), reader) == ReadFor(c, reader)
  {
    if c != [] {
      forall j | 0 <= j < |c[1..]| && c[1..][j].seqNo == s ensures !Visible(c[1..][j], reader) {
        assert c[1..][j] == c[j + 1];
      }
      WithoutUnseen(c[1..], s, reader);
      if c[0].seqNo != s {
        assert Without(c, s)[1..] == Without(c[1..], s);
      }
    }
  }

  /** Aborting reads like deleting when only the first version at `s` is live. */
  lemma {:induction false} AbortReadsLikeDelete(c: Chain, s: U64, reader: U64)
    requires OneLive(c, s)
    ensures ReadFor(Mark(c, s, Aborted), reader) == ReadFor(Without(c, s), reader)
  {
    if c != [] {
      var rest := c[1..];
      if c[0].seqNo == s {
        forall j | 0 <= j < |rest| && rest[j].seqNo == s ensures !Visible(rest[j], reader) {
          assert rest[j] == c[j + 1];
        }
        WithoutUnseen(rest, s, reader);
        assert Mark(c, s, Aborted)[1..] == rest;
      } else {
        AbortReadsLikeDelete(rest, s, reader);
        assert Mark(c, s, Aborted)[1..] == Mark(rest, s, Aborted) && Without(c, s)[1..] == Without(rest, s);
      }
    }
  }

  lemma {:induction false} SecondLive(c: Chain, s: U64) returns (i: nat, j: nat)
    requires !OneLive(c, s)
    ensures i < j < |c| && c[i].seqNo == s && (forall h :: 0 <= h < i ==> c[h].seqNo != s)
    ensures c[j].seqNo == s && c[j].status != Aborted
  {
    if c[0].seqNo == s {
      i := 0;
      j :| 0 < j < |c| && c[j].seqNo == s && c[j].status != Aborted;
    } else {
      i, j := SecondLive(c[1..], s);
      i, j := i + 1, j + 1;
    }
  }

  /** A second live version at `s` shines through the aborted first one. */
  lemma SecondLiveShows(c: Chain, s: U64)
    requires Descending(c) && !OneLive(c, s) && s < U64_LIMIT - 1
    ensures ReadFor(Mark(c, s, Aborted), s + 1).Some? && ReadFor(Mark(c, s, Aborted), s + 1).value.1 == s
  {
    hide OneLive, Mark, ReadFor;
    var i, j := SecondLive(c, s);
    var first := MarkAt(c, s, Aborted);
    assert first == i;
    MarkDescends(c, s, Aborted);
    var m := Mark(c, s, Aborted);
    assert Visible(m[j], s + 1);
    ReadForGreatest(m, s + 1);
  }

  lemma DeletedUnread(c: Chain, s: U64)
    requires s < U64_LIMIT - 1
    ensures ReadFor(Without(c, s), s + 1).Some? ==> ReadFor(Without(c, s), s + 1).value.1 < s
  {
    var i := ReadForFirst(Without(c, s), s + 1);
    WithoutLacks(c, s);
  }

  lemma {:induction false} WithoutLacks(c: Chain, s: U64)
    ensures forall j :: 0 <= j < |Without(c, s)| ==> Without(c, s)[j].seqNo != s
  {
    if c != [] {
      WithoutLacks(c[1..], s);
    }
  }

  /** Aborting reads like deleting for every reader exactly when at most the first version at `s` is live. */
  lemma AbortIsDelete(c: Chain, s: U64)
    requires Descending(c) && s < U64_LIMIT - 1
    ensures (forall r: U64 :: ReadFor(Mark(c, s, Aborted), r) == ReadFor(Without(c, s), r)) <==> OneLive(c, s)
  {
    if OneLive(c, s) {
      forall r: U64 ensures ReadFor(Mark(c, s, Aborted), r) == ReadFor(Without(c, s), r) {
        AbortReadsLikeDelete(c, s, r);
      }
    } else {
      SecondLiveShows(c, s);
      DeletedUnread(c, s);
      assert ReadFor(Mark(c, s, Aborted), s + 1) != ReadFor(Without(c, s), s + 1);
    }
  }

  // ---------------------------------------------------------------- rewriting one key

  /** One transaction writes the same key several times in a row. */
  function AddAll(search: SearchFn, c: Chain, s: U64, values: seq<Option<U256>>): Chain {
    if values == [] then c
    else Add(search, AddAll(search, c, s, values[..|values| - 1]), Version(s, values[|values| - 1], Pending))
  }

  /** After some writes at `s`: they stand in front of the older versions, in some order. */
  ghost predicate Stacked(c2: Chain, c: Chain, s: U64, n: nat) {
    && |c2| == n + |c| && c2[n..] == c
    && forall i :: 0 <= i < n ==> c2[i].seqNo == s && c2[i].status == Pending
  }

  ghost predicate OlderThan(c: Chain, s: U64) {
    Descending(c) && forall i :: 0 <= i < |c| ==> c[i].seqNo < s
  }

  lemma StackedDescends(c2: Chain, c: Chain, s: U64, n: nat)
    requires Stacked(c2, c, s, n) && OlderThan(c, s)
    ensures Descending(c2)
  {
    assert forall i :: n <= i < |c2| ==> c2[i] == c2[n..][i - n];
  }

  lemma StackOne(search: SearchFn, c2: Chain, c: Chain, s: U64, n: nat, v: Version)
    requires SearchOk(search) && Stacked(c2, c, s, n) && OlderThan(c, s) && v.seqNo == s && v.status == Pending
    ensures Stacked(Add(search, c2, v), c, s, n + 1)
    ensures Add(search, c2, v)[0] == v || (n >= 2 && Add(search, c2, v)[0] == c2[0])
    ensures search(c2, s) <= |c2|
  {
    StackedDescends(c2, c, s, n);
    var pos := search(c2, s);
    assert InsertionPoint(c2, s, pos);
    hide SearchOk, Descending;
    StackPlace(c2, c, s, n, pos);
    StackInsert(c2, c, s, n, v, pos);
  }

  lemma StackPlace(c2: Chain, c: Chain, s: U64, n: nat, pos: nat)
    requires Stacked(c2, c, s, n) && OlderThan(c, s) && InsertionPoint(c2, s, pos)
    ensures pos <= n && (n > 0 ==> pos < n)
  {
    forall i | n <= i < |c2| ensures c2[i].seqNo < s {
      assert c2[i] == c2[n..][i - n];
    }
    assert |c2| > 0 ==> c2[0].seqNo <= s && (n > 0 ==> c2[0].seqNo == s);
  }

  lemma StackInsert(c2: Chain, c: Chain, s: U64, n: nat, v: Version, pos: nat)
    requires Stacked(c2, c, s, n) && pos <= n && v.seqNo == s && v.status == Pending
    ensures Stacked(c2[..pos] + [v] + c2[pos..], c, s, n + 1)
  {
    var c3 := c2[..pos] + [v] + c2[pos..];
    assert c3[n + 1..] == c2[n..];
    assert forall i :: 0 <= i < pos ==> c3[i] == c2[i];
    assert c3[pos] == v && forall i :: pos < i < n + 1 ==> c3[i] == c2[i - 1];
  }

  /** Whatever the search does, the front holds the only write, or some write after the first. */
  lemma {:induction false} FrontIsLater(search: SearchFn, c: Chain, s: U64, values: seq<Option<U256>>)
    requires SearchOk(search) && OlderThan(c, s)
    ensures Stacked(AddAll(search, c, s, values), c, s, |values|)
    ensures values != [] ==> |AddAll(search, c, s, values)| > 0
    ensures values != [] ==> exists i :: 0 <= i < |values| && (|values| == 1 || i >= 1) &&
                               AddAll(search, c, s, values)[0].value == values[i]
  {
    if values != [] {
      var rest, last := values[..|values| - 1], values[|values| - 1];
      FrontIsLater(search, c, s, rest);
      var c2 := AddAll(search, c, s, rest);
      StackOne(search, c2, c, s, |rest|, Version(s, last, Pending));
      var front := AddAll(search, c, s, values)[0];
      if front.value != last {
        var i :| 0 <= i < |rest| && (|rest| == 1 || i >= 1) && c2[0].value == rest[i];
        assert values[i] == rest[i];
      } else {
        assert values[|values| - 1] == last;
      }
    }
  }

  /** The first index at or below `s`, and how many versions are at `s`. */
  function FirstAtMost(c: Chain, s: U64): nat {
    if c == [] || c[0].seqNo <= s then 0 else 1 + FirstAtMost(c[1..], s)
  }

  function CountAt(c: Chain, s: U64): nat {
    if c == [] then 0 else (if c[0].seqNo == s then 1 else 0) + CountAt(c[1..], s)
  }

  /** An admissible search that, once `keep` versions tie, answers with the second of them. */
  function Lagging(keep: nat): SearchFn {
    (c: Chain, s: U64) => FirstAtMost(c, s) + if CountAt(c, s) >= keep then 1 else 0
  }

  lemma {:induction false} FirstAtMostIs(c: Chain, s: U64)
    requires Descending(c)
    ensures var p := FirstAtMost(c, s);
            && p <= |c| && (forall i :: 0 <= i < p ==> c[i].seqNo > s) && (forall i :: p <= i < |c| ==> c[i].seqNo <= s)
            && p + CountAt(c, s) <= |c|
            && (forall i :: p <= i < p + CountAt(c, s) ==> c[i].seqNo == s)
            && (forall i :: p + CountAt(c, s) <= i < |c| ==> c[i].seqNo < s)
  {
    if c != [] {
      FirstAtMostIs(c[1..], s);
      assert forall i :: 0 < i < |c| ==> c[i] == c[1..][i - 1];
    }
  }

  lemma LaggingOk(keep: nat)
    requires keep >= 2
    ensures SearchOk(Lagging(keep))
  {
    forall c, s: U64 | Descending(c) ensures InsertionPoint(c, s, Lagging(keep)(c, s)) {
      FirstAtMostIs(c, s);
    }
  }

  lemma {:induction false} StackedCounts(c2: Chain, c: Chain, s: U64, n: nat)
    requires Stacked(c2, c, s, n) && OlderThan(c, s)
    ensures FirstAtMost(c2, s) == 0 && CountAt(c2, s) == n
  {
    if n == 0 {
      assert c2 == c;
      NoneAt(c, s);
    } else {
      assert c2[1..][n - 1..] == c2[n..];
      StackedCounts(c2[1..], c, s, n - 1);
    }
  }

  lemma {:induction false} NoneAt(c: Chain, s: U64)
    requires OlderThan(c, s)
    ensures FirstAtMost(c, s) == 0 && CountAt(c, s) == 0
  {
    if c != [] {
      NoneAt(c[1..], s);
    }
  }

  /** With that search the write number `keep - 1` stays in front. */
  lemma {:induction false} LaggingFront(c: Chain, s: U64, values: seq<Option<U256>>, keep: nat)
    requires keep >= 2 && OlderThan(c, s) && values != []
    ensures var c2 := AddAll(Lagging(keep), c, s, values);
            Stacked(c2, c, s, |values|) && |c2| > 0 &&
                    c2[0].value == values[if |values| <= keep then |values| - 1 else keep - 1]
  {
    hide SearchOk, OlderThan, InsertionPoint;
    LaggingOk(keep);
    var rest, last := values[..|values| - 1], values[|values| - 1];
    FrontIsLater(Lagging(keep), c, s, rest);
    var c2 := AddAll(Lagging(keep), c, s, rest);
    StackedCounts(c2, c, s, |rest|);
    StackOne(Lagging(keep), c2, c, s, |rest|, Version(s, last, Pending));
    if rest != [] {
      LaggingFront(c, s, rest, keep);
    }
  }

  lemma ReadsFront(c2: Chain, c: Chain, s: U64, n: nat)
    requires Stacked(c2, c, s, n) && n > 0 && s < U64_LIMIT - 1
    ensures |c2| > 0 && ReadFor(c2, s + 1) == Some((c2[0].value, s))
  {
  }

  /** A later reader is sure to see the last write exactly when all writes after the first have the same
      value: so always when there are at most two of them. */
  lemma RewriteExact(c: Chain, s: U64, values: seq<Option<U256>>)
    requires OlderThan(c, s) && s < U64_LIMIT - 1 && values != []
    ensures var last := values[|values| - 1];
            (forall search :: SearchOk(search) ==> ReadFor(AddAll(search, c, s, values), s + 1) == Some((last, s))) <==>
            (forall i :: 1 <= i < |values| ==> values[i] == last)
  {
    hide AddAll, SearchOk, Stacked, OlderThan, ReadFor, Lagging;
    var last := values[|values| - 1];
    if forall i :: 1 <= i < |values| ==> values[i] == last {
      forall search | SearchOk(search) ensures ReadFor(AddAll(search, c, s, values), s + 1) == Some((last, s)) {
        FrontIsLater(search, c, s, values);
        ReadsFront(AddAll(search, c, s, values), c, s, |values|);
      }
    } else {
      var i :| 1 <= i < |values| && values[i] != last;
      LaggingOk(i + 1);
      LaggingFront(c, s, values, i + 1);
      ReadsFront(AddAll(Lagging(i + 1), c, s, values), c, s, |values|);
      assert ReadFor(AddAll(Lagging(i + 1), c, s, values), s + 1) == Some((values[i], s));
    }
  }

  // ---------------------------------------------------------------- the chain object

  class VersionChain {
    const search: SearchFn
    var versions: Chain

    ghost predicate Valid()
      reads this
    {
      Descending(versions)
    }

    constructor (search: SearchFn)
      ensures Valid() && versions == [] && this.search == search
    {
      this.search := search;
      versions := [];
    }

    method AddVersion(v: Version)
      requires Valid() && SearchOk(search)
      modifies this
      ensures Valid() && versions == Add(search, old(versions), v)
    {
      AddDescends(search, versions, v);
      var pos := Clamp(search(versions, v.seqNo), |versions|);
      versions := versions[..pos] + [v] + versions[pos..];
    }

    method Read(reader: U64) returns (r: Option<(Option<U256>, U64)>)
      requires Valid()
      ensures r == ReadFor(versions, reader)
    {
      for i := 0 to |versions|
        invariant ReadFor(versions, reader) == ReadFor(versions[i..], reader)
      {
        if versions[i].seqNo < reader && versions[i].status != Aborted {
          return Some((versions[i].value, versions[i].seqNo));
        }
        assert versions[i..][1..] == versions[i + 1..];
      }
      return None;
    }

    method SetStatus(s: U64, status: TxStatus)
      requires Valid()
      modifies this
      ensures Valid() && versions == Mark(old(versions), s, status)
    {
      MarkDescends(versions, s, status);
      ghost var first := MarkAt(versions, s, status);
      for i := 0 to |versions|
        invariant versions == old(versions) && i <= first
      {
        if versions[i].seqNo == s {
          versions := versions[i := versions[i].(status := status)];
          return;
        }
      }
    }

    method GcAborted()
      requires Valid()
      modifies this
      ensures Valid() && versions == Gc(old(versions))
    {
      GcDescends(versions);
      var kept: Chain := [];
      for i := 0 to |versions|
        invariant versions == old(versions)
        invariant kept + Gc(versions[i..]) == Gc(versions)
      {
        assert versions[i..][1..] == versions[i + 1..];
        if versions[i].status != Aborted {
          kept := kept + [versions[i]];
        }
      }
      assert kept == Gc(versions);
      versions := kept;
    }
  }
}
