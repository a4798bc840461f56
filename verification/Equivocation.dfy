/** The plainest way to lose agreement: one leader with two supported events for its round. */
module Equivocation {
  import opened Common
  import opened Validators
  import opened Leader
  import opened DagModel
  import opened Commit
  import opened Agreement

  /** `a` and `b` are two round-1 events of one creator; every validator's round-2 event has both as parents. */
  ghost predicate Split(n: Network, a: Event, b: Event, votes: seq<Event>) {
    && a.creator == b.creator && a.round == b.round == 1 && a.id != b.id
    && (forall i :: 0 <= i < |votes| ==>
          && votes[i].round == 2 && votes[i].id != a.id && votes[i].id != b.id
          && a.id in votes[i].strongParents && b.id in votes[i].strongParents)
    && (forall i, j :: 0 <= i < j < |votes| ==> votes[i].id != votes[j].id)
    && (forall v :: v in n.stakes ==> exists i :: 0 <= i < |votes| && votes[i].creator == v)
  }

  /** A node that stores `a` before `b`, then all the votes. */
  function Schedule(a: Event, b: Event, votes: seq<Event>): seq<Step> {
    [Deliver(a), Deliver(b)] + Deliveries(votes)
  }

  /** The store after such a schedule: the later of the two events is the one looked up. */
  ghost predicate Stored(d: Dag, b: Event, votes: seq<Event>) {
    && (b.creator, 1) in d.byCreatorRound && d.byCreatorRound[(b.creator, 1)] == b.id
    && b.id in d.events && d.events[b.id] == b
    && (forall i :: 0 <= i < |votes| ==>
          votes[i].id in d.events && d.events[votes[i].id] == votes[i] && votes[i].id in IdsAt(d, 2))
    && d.maxRound == if votes == [] then 1 else 2
  }

  lemma RunTwo(n: Network, seed: Digest, a: Event, b: Event)
    ensures Run(n, seed, [Deliver(a), Deliver(b)]) == Node(Inserted(Inserted(EMPTY_DAG, a), b), State(0, seed), [])
  {
    hide Inserted, Advance;
    var steps := [Deliver(a), Deliver(b)];
    assert steps[..1] == [Deliver(a)] && [Deliver(a)][..0] == [];
    assert Run(n, seed, []) == Node(EMPTY_DAG, State(0, seed), []);
    assert Run(n, seed, [Deliver(a)]) == Node(Inserted(EMPTY_DAG, a), State(0, seed), []);
  }

  lemma {:induction false} ScheduleStores(n: Network, seed: Digest, a: Event, b: Event, votes: seq<Event>)
    requires a.creator == b.creator && a.round == b.round == 1
    requires forall i :: 0 <= i < |votes| ==> votes[i].round == 2 && votes[i].id != b.id
    requires forall i, j :: 0 <= i < j < |votes| ==> votes[i].id != votes[j].id
    ensures Stored(Run(n, seed, Schedule(a, b, votes)).dag, b, votes)
    ensures Run(n, seed, Schedule(a, b, votes)).state == State(0, seed)
    ensures Run(n, seed, Schedule(a, b, votes)).history == []
  {
    var steps := Schedule(a, b, votes);
    if votes == [] {
      assert steps == [Deliver(a), Deliver(b)];
      RunTwo(n, seed, a, b);
    } else {
      var last := |votes| - 1;
      assert steps[..|steps| - 1] == Schedule(a, b, votes[..last]);
      assert steps[|steps| - 1] == Deliver(votes[last]);
      ScheduleStores(n, seed, a, b, votes[..last]);
      StoreOne(Run(n, seed, steps[..|steps| - 1]).dag, b, votes);
    }
  }

  lemma StoreOne(d: Dag, b: Event, votes: seq<Event>)
    requires votes != [] && b.round == 1 && Stored(d, b, votes[..|votes| - 1])
    requires forall i :: 0 <= i < |votes| ==> votes[i].round == 2 && votes[i].id != b.id
    requires forall i, j :: 0 <= i < j < |votes| ==> votes[i].id != votes[j].id
    ensures Stored(Inserted(d, votes[|votes| - 1]), b, votes)
  {
    var last := |votes| - 1;
    var d2 := Inserted(d, votes[last]);
    forall i | 0 <= i < |votes|
        ensures votes[i].id in IdsAt(d2, 2) && votes[i].id in d2.events && d2.events[votes[i].id] == votes[i] {
      if i < last {
        assert votes[..last][i] == votes[i];
      } else {
        assert IdsAt(d2, 2)[|IdsAt(d, 2)|] == votes[last].id;
      }
    }
  }

  lemma EveryoneIsQuorum(n: Network, s: set<ValidatorId>)
    requires WellFormed(n) && n.stakes != map[] && n.stakes.Keys <= s
    ensures IsQuorum(n.stakes, n.total, s)
  {
    NonEmptyWeighs(n.stakes);
    SumMonotone(n.stakes, n.stakes.Keys, s);
    SumAtMostTotal(n.stakes, s);
    assert Wrap(n.total * 2) <= n.total * 2;
  }

  /** The node commits round 1 with whichever of the two events it stored last. */
  lemma CommitsLast(n: Network, seed: Digest, d: Dag, b: Event, votes: seq<Event>)
    requires WellFormed(n) && n.stakes != map[] && votes != [] && b.round == 1
    requires Elected(n.sha, n.stakes, n.total, 1, seed) == Some(b.creator)
    requires Stored(d, b, votes)
    requires forall i :: 0 <= i < |votes| ==> b.id in votes[i].strongParents
    requires forall v :: v in n.stakes ==> exists i :: 0 <= i < |votes| && votes[i].creator == v
    ensures |Advance(n, d, State(0, seed)).0| > 0 && Advance(n, d, State(0, seed)).0[0].anchor == b.id
  {
    hide Elected, Supported, Advance, RoundEvents, WellFormed;
    AllSupport(n, d, b, votes);
    assert EventAt(d, b.creator, 1) == Some(b) && d.maxRound == 2;
    hide Stored, EventAt;
    assert FirstSupport(n, d, b.id, 2) == Some(2);
    var next := AdvanceContinues(n, d, State(0, seed));
  }

  lemma AllSupport(n: Network, d: Dag, b: Event, votes: seq<Event>)
    requires WellFormed(n) && n.stakes != map[] && Stored(d, b, votes)
    requires forall i :: 0 <= i < |votes| ==> b.id in votes[i].strongParents
    requires forall v :: v in n.stakes ==> exists i :: 0 <= i < |votes| && votes[i].creator == v
    ensures Supported(n, d, b.id, 2)
  {
    forall v | v in n.stakes ensures v in Supporters(d, b.id, 2) {
      var i :| 0 <= i < |votes| && votes[i].creator == v;
      assert PathBetween(d.events, [votes[i].id, b.id], votes[i].id, b.id);
      assert votes[i] in RoundEvents(d, 2);
    }
    EveryoneIsQuorum(n, Supporters(d, b.id, 2));
  }

  /** Storing the leader's two events in opposite orders makes two nodes decide different anchors. */
  lemma EquivocationSplits(n: Network, seed: Digest, a: Event, b: Event, votes: seq<Event>)
    requires WellFormed(n) && n.stakes != map[]
    requires Elected(n.sha, n.stakes, n.total, 1, seed) == Some(a.creator) && Split(n, a, b, votes)
    ensures var x := Run(n, seed, Schedule(a, b, votes) + [TryAdvance]);
            var y := Run(n, seed, Schedule(b, a, votes) + [TryAdvance]);
            var hx, hy := Decisions(x.history), Decisions(y.history);
            && x.dag.events == y.dag.events
            && !(hx <= hy) && !(hy <= hx)
  {
    SameEvents(n, seed, a, b, votes);
    hide Advance, Elected, Split, Run, Schedule;
    RunCommitsLast(n, seed, a, b, votes);
    SplitSwaps(n, a, b, votes);
    RunCommitsLast(n, seed, b, a, votes);
  }

  lemma SplitSwaps(n: Network, a: Event, b: Event, votes: seq<Event>)
    requires Split(n, a, b, votes)
    ensures Split(n, b, a, votes) && a.creator == b.creator && a.id != b.id
  {
  }

  lemma RunCommitsLast(n: Network, seed: Digest, a: Event, b: Event, votes: seq<Event>)
    requires WellFormed(n) && n.stakes != map[]
    requires Elected(n.sha, n.stakes, n.total, 1, seed) == Some(a.creator) && Split(n, a, b, votes)
    ensures var x := Run(n, seed, Schedule(a, b, votes) + [TryAdvance]);
            && x.dag == Run(n, seed, Schedule(a, b, votes)).dag
            && |x.history| > 0 && x.history[0].anchor == b.id
  {
    var s := Schedule(a, b, votes);
    SplitHasVotes(n, a, b, votes);
    ScheduleStores(n, seed, a, b, votes);
    hide Run, Advance, Elected, Stored, Schedule, WellFormed;
    CommitsLast(n, seed, Run(n, seed, s).dag, b, votes);
    RunThen(n, seed, s, TryAdvance);
  }

  lemma SplitHasVotes(n: Network, a: Event, b: Event, votes: seq<Event>)
    requires n.stakes != map[] && Split(n, a, b, votes)
    ensures votes != []
  {
    var v :| v in n.stakes;
    assert exists i :: 0 <= i < |votes| && votes[i].creator == v;
  }

  lemma {:induction false} SameEvents(n: Network, seed: Digest, a: Event, b: Event, votes: seq<Event>)
    requires a.id != b.id
    ensures Run(n, seed, Schedule(a, b, votes)).dag.events == Run(n, seed, Schedule(b, a, votes)).dag.events
  {
    var s, t := Schedule(a, b, votes), Schedule(b, a, votes);
    if votes == [] {
      assert s == [Deliver(a), Deliver(b)] && t == [Deliver(b), Deliver(a)];
      RunTwo(n, seed, a, b);
      RunTwo(n, seed, b, a);
    } else {
      var last := |votes| - 1;
      assert s[..|s| - 1] == Schedule(a, b, votes[..last]) && t[..|t| - 1] == Schedule(b, a, votes[..last]);
      SameEvents(n, seed, a, b, votes[..last]);
    }
  }
}
