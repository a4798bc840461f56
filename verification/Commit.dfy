/** Commit detection: when a round's anchor is decided, and what a detector decides. */
module Commit {
  import opened Common
  import opened Validators
  import opened Leader
  import opened DagModel

  /** What every node of one network shares. */
  datatype Network = Network(sha: HashFn, stakes: Stakes, total: U64)

  /** The validator set is one that adding and removing validators can build without overflow. */
  ghost predicate WellFormed(n: Network) {
    n.total == Total(n.stakes) && forall v :: v in n.stakes ==> n.stakes[v] > 0
  }

  datatype CommitResult = CommitResult(round: U64, anchor: EventId, leader: ValidatorId, supportRound: U64)

  /** The part of a commit that all nodes must agree on. */
  datatype Decision = Decision(round: U64, anchor: EventId, leader: ValidatorId)

  function Decide(c: CommitResult): Decision {
    Decision(c.round, c.anchor, c.leader)
  }

  function Decisions(cs: seq<CommitResult>): (ds: seq<Decision>)
    ensures |ds| == |cs| && forall i :: 0 <= i < |ds| ==> ds[i] == Decide(cs[i])
  {
    seq(|cs|, i requires 0 <= i < |cs| => Decide(cs[i]))
  }

  /** The fields a detector changes. */
  datatype State = State(last: U64, seed: Digest)

  // ---------------------------------------------------------------- the rule

  ghost function Supporters(d: Dag, anchor: EventId, round: U64): set<ValidatorId> {
    set e | e in RoundEvents(d, round) && Reaches(d.events, e.id, anchor) :: e.creator
  }

  ghost predicate Supported(n: Network, d: Dag, anchor: EventId, round: U64) {
    IsQuorum(n.stakes, n.total, Supporters(d, anchor, round))
  }

  /** The first round from `from` on at which a quorum reaches the anchor. */
  ghost function FirstSupport(n: Network, d: Dag, anchor: EventId, from: nat): (r: Option<U64>)
    ensures r.Some? ==> from <= r.value <= d.maxRound && Supported(n, d, anchor, r.value)
    ensures forall q: U64 :: from <= q <= d.maxRound && Supported(n, d, anchor, q) ==> r.Some? && r.value <= q
    decreases d.maxRound + 1 - from
  {
    if from > d.maxRound then None
    else if Supported(n, d, anchor, from) then Some(from)
    else FirstSupport(n, d, anchor, from + 1)
  }

  lemma FirstSupportStep(n: Network, d: Dag, anchor: EventId, from: nat)
    ensures FirstSupport(n, d, anchor, from) ==
            if from > d.maxRound then None
            else if Supported(n, d, anchor, from) then Some(from) else FirstSupport(n, d, anchor, from + 1)
  {
  }

  ghost function Check(n: Network, d: Dag, s: State, round: U64): Option<CommitResult> {
    if round <= s.last then None else
      match Elected(n.sha, n.stakes, n.total, round, s.seed)
      case None => None
      case Some(leader) =>
        match EventAt(d, leader, round)
        case None => None
        case Some(anchor) =>
          match FirstSupport(n, d, anchor.id, Wrap(round as int + 1))
          case None => None
          case Some(support) => Some(CommitResult(round, anchor.id, leader, support))
  }

  function Confirm(sha: HashFn, s: State, round: U64, anchor: EventId): State {
    if round > s.last then State(round, sha(anchor)) else s
  }

  /** Commits round after round until one cannot be decided. */
  ghost function Advance(n: Network, d: Dag, s: State): (r: (seq<CommitResult>, State))
    decreases d.maxRound - s.last
  {
    if s.last >= d.maxRound then ([], s) else
      match Check(n, d, s, s.last + 1)
      case None => ([], s)
      case Some(c) =>
        var rest := Advance(n, d, Confirm(n.sha, s, c.round, c.anchor));
        ([c] + rest.0, rest.1)
  }

  lemma AdvanceStops(n: Network, d: Dag, s: State)
    requires s.last < d.maxRound ==> Check(n, d, s, s.last + 1).None?
    ensures Advance(n, d, s).0 == [] && Advance(n, d, s).1 == s
  {
  }

  lemma AdvanceContinues(n: Network, d: Dag, s: State) returns (next: State)
    requires s.last < d.maxRound && Check(n, d, s, s.last + 1).Some?
    ensures var c := Check(n, d, s, s.last + 1).value;
            && next == State(s.last + 1, n.sha(c.anchor)) == Confirm(n.sha, s, c.round, c.anchor)
            && c.round == s.last + 1
            && Advance(n, d, s).0 == [c] + Advance(n, d, next).0
            && Advance(n, d, s).1 == Advance(n, d, next).1
  {
    hide Check;
    CheckNamesRound(n, d, s, s.last + 1);
    next := State(s.last + 1, n.sha(Check(n, d, s, s.last + 1).value.anchor));
  }

  lemma CheckNamesRound(n: Network, d: Dag, s: State, round: U64)
    requires Check(n, d, s, round).Some?
    ensures Check(n, d, s, round).value.round == round > s.last
  {
    hide FirstSupport, Elected, EventAt;
  }

  /** The round after the last wraps to zero, and only then is not the successor. */
  lemma NextRound(last: U64)
    ensures Wrap(last as int + 1) == if last as int + 1 == U64_LIMIT then 0 else last + 1
  {
  }

  class CommitDetector {
    const network: Network
    var lastCommitted: U64
    var seed: Digest

    ghost function Now(): State
      reads this
    {
      State(lastCommitted, seed)
    }

    constructor (network: Network, initialSeed: Digest)
      ensures this.network == network && Now() == State(0, initialSeed)
    {
      this.network := network;
      lastCommitted := 0;
      seed := initialSeed;
    }

    method CheckQuorumSupport(dag: DagStore, anchor: EventId, futureRound: U64) returns (r: Option<U64>)
      ensures r == if Supported(network, dag.View(), anchor, futureRound) then Some(futureRound) else None
    {
      var events := dag.EventsAtRound(futureRound);
      var supporters: set<ValidatorId> := {};
      for i := 0 to |events|
        invariant supporters == set e | e in events[..i] && Reaches(dag.events, e.id, anchor) :: e.creator
      {
        var reached := dag.CanReach(events[i].id, anchor);
        assert events[..i + 1] == events[..i] + [events[i]];
        if reached {
          supporters := supporters + {events[i].creator};
        }
      }
      assert events[..|events|] == events;
      assert supporters == Supporters(dag.View(), anchor, futureRound);
      var quorum := HasQuorum(network.stakes, network.total, supporters);
      r := if quorum then Some(futureRound) else None;
    }

    method CheckCommit(dag: DagStore, round: U64) returns (r: Option<CommitResult>)
      requires network.stakes != map[] ==> network.total != 0
      ensures r == Check(network, dag.View(), Now(), round)
    {
      hide Elected, FirstSupport, Supported, Total;
      if round <= lastCommitted {
        return None;
      }
      var leader := ElectLeader(network.sha, network.stakes, network.total, round, seed);
      if leader.None? {
        return None;
      }
      if (leader.value, round) !in dag.byCreatorRound || dag.byCreatorRound[(leader.value, round)] !in dag.events {
        return None;
      }
      var anchor := dag.events[dag.byCreatorRound[(leader.value, round)]];
      ghost var d := dag.View();
      var futureRound: int := Wrap(round as int + 1);
      while futureRound <= dag.maxRound
        invariant 0 <= futureRound
        invariant FirstSupport(network, d, anchor.id, Wrap(round as int + 1)) ==
                  FirstSupport(network, d, anchor.id, futureRound)
        decreases dag.maxRound + 1 - futureRound
      {
        FirstSupportStep(network, d, anchor.id, futureRound);
        var support := CheckQuorumSupport(dag, anchor.id, futureRound);
        if support.Some? {
          return Some(CommitResult(round, anchor.id, leader.value, support.value));
        }
        futureRound := futureRound + 1;
      }
      FirstSupportStep(network, d, anchor.id, futureRound);
      return None;
    }

    method ConfirmCommit(round: U64, anchor: EventId)
      modifies this
      ensures Now() == Confirm(network.sha, old(Now()), round, anchor)
    {
      if round > lastCommitted {
        lastCommitted := round;
        seed := network.sha(anchor);
      }
    }

    method TryAdvance(dag: DagStore) returns (commits: seq<CommitResult>)
      requires network.stakes != map[] ==> network.total != 0
      modifies this
      ensures commits == Advance(network, dag.View(), old(Now())).0
      ensures Now() == Advance(network, dag.View(), old(Now())).1
    {
      hide Check, Advance;
      ghost var d := dag.View();
      commits := [];
      var round := Wrap(lastCommitted as int + 1);
      while round <= dag.maxRound
        invariant dag.View() == d && round == Wrap(lastCommitted as int + 1)
        invariant Resumes(Advance(network, d, old(Now())), commits, Advance(network, d, Now()))
        decreases U64_LIMIT - lastCommitted
      {
        NextRound(lastCommitted);
        var result := CheckCommit(dag, round);
        if result.None? {
          AdvanceStops(network, d, Now());
          return;
        }
        CheckNamesRound(network, d, Now(), round);
        ghost var next := AdvanceContinues(network, d, Now());
        ConfirmCommit(result.value.round, result.value.anchor);
        commits := commits + [result.value];
        round := Wrap(round as int + 1);
      }
      NextRound(lastCommitted);
      AdvanceStops(network, d, Now());
    }
  }

  /** `whole` is what `done` and then `rest` amount to. */
  ghost predicate Resumes(whole: (seq<CommitResult>, State), done: seq<CommitResult>,
                          rest: (seq<CommitResult>, State)) {
    whole.0 == done + rest.0 && whole.1 == rest.1
  }
}
