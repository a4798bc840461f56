/** Which events a set of events can commit, read off the set alone, and how a detector follows them. */
module Candidates {
  import opened Common
  import opened Validators
  import opened Leader
  import opened DagModel
  import opened Commit

  // ---------------------------------------------------------------- support in a set of events

  ghost function Index(s: set<Event>): map<EventId, Event>
    requires IdsUnique(s)
  {
    map e | e in s :: e.id := e
  }

  ghost function SupportersIn(s: set<Event>, anchor: EventId, round: U64): set<ValidatorId>
    requires IdsUnique(s)
  {
    set e | e in s && e.round == round && Reaches(Index(s), e.id, anchor) :: e.creator
  }

  ghost predicate SupportedIn(n: Network, s: set<Event>, anchor: EventId, round: U64)
    requires IdsUnique(s)
  {
    IsQuorum(n.stakes, n.total, SupportersIn(s, anchor, round))
  }

  lemma SubsetUnique(s: set<Event>, s2: set<Event>)
    requires s <= s2 && IdsUnique(s2)
    ensures IdsUnique(s)
  {
    assert forall e :: e in s ==> e in s2;
  }

  /** A store's support is that of the events it keeps. */
  lemma SupportKept(n: Network, d: Dag, s: set<Event>, anchor: EventId, round: U64)
    requires Keeps(d, s) && IdsUnique(s)
    ensures Supported(n, d, anchor, round) <==> SupportedIn(n, s, anchor, round)
  {
    hide IsQuorum, Reaches, HoldsByRound, HoldsRounds, LeadsSomewhere;
    assert d.events == Index(s);
    RoundEventsHeld(d, s, round);
    assert Supporters(d, anchor, round) == SupportersIn(s, anchor, round);
  }

  /** Support survives any growth of the set. */
  lemma SupportMonotone(n: Network, s: set<Event>, s2: set<Event>, anchor: EventId, round: U64)
    requires WellFormed(n) && s <= s2 && IdsUnique(s) && IdsUnique(s2) && SupportedIn(n, s, anchor, round)
    ensures SupportedIn(n, s2, anchor, round)
  {
    hide IsQuorum, Reaches;
    assert forall e :: e in s ==> e in s2;
    forall v | v in SupportersIn(s, anchor, round) ensures v in SupportersIn(s2, anchor, round) {
      var e :| e in s && e.round == round && Reaches(Index(s), e.id, anchor) && e.creator == v;
      ReachesMonotone(Index(s), Index(s2), e.id, anchor);
      assert e in s2;
    }
    QuorumMonotone(n.stakes, n.total, SupportersIn(s, anchor, round), SupportersIn(s2, anchor, round));
  }

  lemma SupportNamesRound(n: Network, s: set<Event>, anchor: EventId, round: U64)
    requires IdsUnique(s) && SupportedIn(n, s, anchor, round)
    ensures exists e :: e in s && e.round == round
  {
    hide IsQuorum, Reaches;
    NobodyIsNoQuorum(n.stakes, n.total);
    assert SupportersIn(s, anchor, round) != {};
    var v :| v in SupportersIn(s, anchor, round);
  }

  // ---------------------------------------------------------------- candidates

  /** In state `st` the set can commit `e`: it is the elected leader's event for the next round, and some later round
      has a quorum that reaches it. */
  ghost predicate Candidate(n: Network, s: set<Event>, st: State, e: Event)
    requires IdsUnique(s)
  {
    && e in s && e.round == st.last + 1
    && Elected(n.sha, n.stakes, n.total, e.round, st.seed) == Some(e.creator)
    && BackedLater(n, s, e)
  }

  ghost predicate BackedLater(n: Network, s: set<Event>, e: Event)
    requires IdsUnique(s)
  {
    exists q: U64 :: Wrap(e.round as int + 1) <= q && SupportedIn(n, s, e.id, q)
  }

  function Next(n: Network, e: Event): State {
    State(e.round, n.sha(e.id))
  }

  function PathState(n: Network, st: State, path: seq<Event>): State
    decreases path
  {
    if path == [] then st else PathState(n, Next(n, path[0]), path[1..])
  }

  /** A sequence of candidates, each in the state the earlier ones lead to. */
  ghost predicate CandidatePath(n: Network, s: set<Event>, st: State, path: seq<Event>)
    requires IdsUnique(s)
    decreases path
  {
    path == [] || (Candidate(n, s, st, path[0]) && CandidatePath(n, s, Next(n, path[0]), path[1..]))
  }

  function DecisionOf(e: Event): Decision {
    Decision(e.round, e.id, e.creator)
  }

  function DecisionsOf(path: seq<Event>): (ds: seq<Decision>)
    ensures |ds| == |path| && forall i :: 0 <= i < |ds| ==> ds[i] == DecisionOf(path[i])
  {
    seq(|path|, i requires 0 <= i < |path| => DecisionOf(path[i]))
  }

  lemma CandidateGrows(n: Network, s: set<Event>, s2: set<Event>, st: State, e: Event)
    requires WellFormed(n) && s <= s2 && IdsUnique(s) && IdsUnique(s2) && Candidate(n, s, st, e)
    ensures Candidate(n, s2, st, e)
  {
    hide SupportedIn, IdsUnique, Elected;
    var q: U64 :| Wrap(e.round as int + 1) <= q && SupportedIn(n, s, e.id, q);
    SupportMonotone(n, s, s2, e.id, q);
  }

  lemma {:induction false} PathGrows(n: Network, s: set<Event>, s2: set<Event>, st: State, path: seq<Event>)
    requires WellFormed(n) && s <= s2 && IdsUnique(s) && IdsUnique(s2) && CandidatePath(n, s, st, path)
    ensures CandidatePath(n, s2, st, path)
    decreases path
  {
    hide Candidate, IdsUnique;
    if path != [] {
      CandidateGrows(n, s, s2, st, path[0]);
      PathGrows(n, s, s2, Next(n, path[0]), path[1..]);
    }
  }

  lemma {:induction false} PathConcat(n: Network, s: set<Event>, st: State, p: seq<Event>, q: seq<Event>)
    requires IdsUnique(s) && CandidatePath(n, s, st, p) && CandidatePath(n, s, PathState(n, st, p), q)
    ensures CandidatePath(n, s, st, p + q) && PathState(n, st, p + q) == PathState(n, PathState(n, st, p), q)
    decreases p
  {
    hide Candidate, IdsUnique;
    if p == [] {
      assert p + q == q;
    } else {
      assert (p + q)[0] == p[0] && (p + q)[1..] == p[1..] + q;
      PathConcat(n, s, Next(n, p[0]), p[1..], q);
    }
  }

  lemma {:induction false} PathRounds(n: Network, s: set<Event>, st: State, path: seq<Event>, i: nat)
    requires IdsUnique(s) && CandidatePath(n, s, st, path) && i < |path|
    ensures path[i] in s && path[i].round == st.last + 1 + i
    decreases path
  {
    hide Candidate, IdsUnique;
    CandidateRound(n, s, st, path[0]);
    if i > 0 {
      PathRounds(n, s, Next(n, path[0]), path[1..], i - 1);
    }
  }

  // ---------------------------------------------------------------- a detector follows candidates

  lemma {:induction false} CheckIsCandidate(n: Network, d: Dag, s: set<Event>, st: State) returns (e: Event)
    requires Keeps(d, s) && IdsUnique(s) && st.last < d.maxRound && Check(n, d, st, st.last + 1).Some?
    ensures Candidate(n, s, st, e) && Decide(Check(n, d, st, st.last + 1).value) == DecisionOf(e)
  {
    hide Keeps, Elected, Supported, IdsUnique, SupportedIn;
    var c := Check(n, d, st, st.last + 1).value;
    e := EventAt(d, c.leader, c.round).value;
    KeptLookup(d, s, c.leader, c.round);
    SupportKept(n, d, s, c.anchor, c.supportRound);
    assert Wrap(e.round as int + 1) <= c.supportRound && SupportedIn(n, s, e.id, c.supportRound);
  }

  lemma KeptLookup(d: Dag, s: set<Event>, creator: ValidatorId, round: U64)
    requires Keeps(d, s) && EventAt(d, creator, round).Some?
    ensures var e := EventAt(d, creator, round).value; e in s && e.creator == creator && e.round == round
  {
    EventAtHeld(d, s, creator, round);
  }

  /** A candidate that the lookup finds is what the check decides. */
  lemma CandidateFound(n: Network, d: Dag, s: set<Event>, st: State, e: Event)
    requires Keeps(d, s) && IdsUnique(s) && Candidate(n, s, st, e) && EventAt(d, e.creator, e.round) == Some(e)
    ensures st.last < d.maxRound && Check(n, d, st, st.last + 1).Some?
    ensures Decide(Check(n, d, st, st.last + 1).value) == DecisionOf(e)
  {
    hide Elected, Supported, IdsUnique, SupportedIn, HoldsEvents, LeadsSomewhere, HoldsByRound, EventAt;
    var q: U64 :| Wrap(e.round as int + 1) <= q && SupportedIn(n, s, e.id, q);
    SupportNamesRound(n, s, e.id, q);
    SupportKept(n, d, s, e.id, q);
    assert q <= d.maxRound;
  }

  /** Whatever a detector decides is a path of candidates. */
  lemma {:induction false} AdvancePath(n: Network, d: Dag, s: set<Event>, st: State) returns (path: seq<Event>)
    requires Keeps(d, s) && IdsUnique(s)
    ensures CandidatePath(n, s, st, path) && PathState(n, st, path) == Advance(n, d, st).1
    ensures Decisions(Advance(n, d, st).0) == DecisionsOf(path)
    decreases d.maxRound - st.last
  {
    hide Keeps, IdsUnique, Check, Advance, Candidate;
    if st.last < d.maxRound && Check(n, d, st, st.last + 1).Some? {
      var e := CheckIsCandidate(n, d, s, st);
      var next := AdvanceContinues(n, d, st);
      var rest := AdvancePath(n, d, s, next);
      path := [e] + rest;
      assert path[1..] == rest;
    } else {
      AdvanceStops(n, d, st);
      path := [];
    }
  }

  /** A detector on a store whose lookups find every candidate of a path decides that path, and then goes on from
      its end. */
  lemma {:induction false} AdvanceFollows(n: Network, d: Dag, s: set<Event>, st: State, path: seq<Event>)
    requires Keeps(d, s) && IdsUnique(s) && CandidatePath(n, s, st, path)
    requires forall i :: 0 <= i < |path| ==> EventAt(d, path[i].creator, path[i].round) == Some(path[i])
    ensures var rest := Advance(n, d, PathState(n, st, path));
            Decisions(Advance(n, d, st).0) == DecisionsOf(path) + Decisions(rest.0) && Advance(n, d, st).1 == rest.1
    decreases |path|
  {
    hide Keeps, IdsUnique, Check, Advance, Candidate, EventAt;
    if path == [] {
      assert DecisionsOf(path) == [];
    } else {
      CandidateFound(n, d, s, st, path[0]);
      CandidateRound(n, s, st, path[0]);
      var next := AdvanceContinues(n, d, st);
      assert next == Next(n, path[0]);
      AdvanceFollows(n, d, s, next, path[1..]);
      SplitDecisions(Advance(n, d, st).0, path, Advance(n, d, next).0, Advance(n, d, PathState(n, st, path)).0);
    }
  }

  lemma SplitDecisions(all: seq<CommitResult>, path: seq<Event>, later: seq<CommitResult>, rest: seq<CommitResult>)
    requires path != [] && all != [] && all == [all[0]] + later && Decide(all[0]) == DecisionOf(path[0])
    requires Decisions(later) == DecisionsOf(path[1..]) + Decisions(rest)
    ensures Decisions(all) == DecisionsOf(path) + Decisions(rest)
  {
    assert Decisions(all) == [Decide(all[0])] + Decisions(later);
    assert DecisionsOf(path) == [DecisionOf(path[0])] + DecisionsOf(path[1..]);
  }

  lemma CandidateRound(n: Network, s: set<Event>, st: State, e: Event)
    requires IdsUnique(s) && Candidate(n, s, st, e)
    ensures e in s && e.round == st.last + 1
  {
  }

  lemma DecisionsConcat(p: seq<Event>, q: seq<Event>)
    ensures DecisionsOf(p + q) == DecisionsOf(p) + DecisionsOf(q)
  {
  }

  // ---------------------------------------------------------------- conditions on a set of events

  /** Wherever candidates lead from `st`, at most one event is a candidate. */
  ghost predicate Unambiguous(n: Network, s: set<Event>, st: State)
    requires IdsUnique(s)
  {
    forall path :: CandidatePath(n, s, st, path) ==> OneCandidate(n, s, PathState(n, st, path))
  }

  ghost predicate OneCandidate(n: Network, s: set<Event>, st: State)
    requires IdsUnique(s)
  {
    forall a, b :: Candidate(n, s, st, a) && Candidate(n, s, st, b) ==> a == b
  }

  /** Wherever candidates lead from `st`, a candidate is its creator's only event of its round. */
  ghost predicate Firm(n: Network, s: set<Event>, st: State)
    requires IdsUnique(s)
  {
    forall path :: CandidatePath(n, s, st, path) ==> FirmAt(n, s, PathState(n, st, path))
  }

  ghost predicate FirmAt(n: Network, s: set<Event>, st: State)
    requires IdsUnique(s)
  {
    forall a, b :: Candidate(n, s, st, a) && b in s && SameSlot(a, b) ==> a == b
  }

  predicate SameSlot(a: Event, b: Event) {
    a.creator == b.creator && a.round == b.round
  }

  lemma ConsPath(n: Network, s: set<Event>, st: State, e: Event, path: seq<Event>)
    requires IdsUnique(s) && Candidate(n, s, st, e) && CandidatePath(n, s, Next(n, e), path)
    ensures CandidatePath(n, s, st, [e] + path) && PathState(n, st, [e] + path) == PathState(n, Next(n, e), path)
  {
    hide Candidate, IdsUnique;
    assert ([e] + path)[1..] == path;
  }

  lemma UnambiguousNext(n: Network, s: set<Event>, st: State, e: Event)
    requires IdsUnique(s) && Unambiguous(n, s, st) && Candidate(n, s, st, e)
    ensures Unambiguous(n, s, Next(n, e))
  {
    hide Candidate, IdsUnique, OneCandidate, CandidatePath;
    forall path | CandidatePath(n, s, Next(n, e), path) ensures OneCandidate(n, s, PathState(n, Next(n, e), path)) {
      ConsPath(n, s, st, e, path);
    }
  }

  lemma UnambiguousHere(n: Network, s: set<Event>, st: State)
    requires IdsUnique(s) && Unambiguous(n, s, st)
    ensures OneCandidate(n, s, st)
  {
    hide Candidate, IdsUnique, OneCandidate;
    assert CandidatePath(n, s, st, []);
  }

  lemma FirmNext(n: Network, s: set<Event>, st: State, e: Event)
    requires IdsUnique(s) && Firm(n, s, st) && Candidate(n, s, st, e)
    ensures Firm(n, s, Next(n, e))
  {
    hide Candidate, IdsUnique, FirmAt, CandidatePath;
    forall path | CandidatePath(n, s, Next(n, e), path) ensures FirmAt(n, s, PathState(n, Next(n, e), path)) {
      ConsPath(n, s, st, e, path);
    }
  }

  lemma FirmHere(n: Network, s: set<Event>, st: State)
    requires IdsUnique(s) && Firm(n, s, st)
    ensures FirmAt(n, s, st)
  {
    hide Candidate, IdsUnique, FirmAt;
    assert CandidatePath(n, s, st, []);
  }

  lemma {:induction false} FirmAfter(n: Network, s: set<Event>, st: State, path: seq<Event>)
    requires IdsUnique(s) && Firm(n, s, st) && CandidatePath(n, s, st, path)
    ensures Firm(n, s, PathState(n, st, path))
    decreases path
  {
    hide Candidate, IdsUnique, Firm;
    if path != [] {
      FirmNext(n, s, st, path[0]);
      FirmAfter(n, s, Next(n, path[0]), path[1..]);
    }
  }

  lemma FirmShrinks(n: Network, s: set<Event>, s2: set<Event>, st: State)
    requires WellFormed(n) && s <= s2 && IdsUnique(s) && IdsUnique(s2) && Firm(n, s2, st)
    ensures Firm(n, s, st)
  {
    hide Candidate, IdsUnique, CandidatePath;
    assert forall e :: e in s ==> e in s2;
    forall path | CandidatePath(n, s, st, path) ensures FirmAt(n, s, PathState(n, st, path)) {
      PathGrows(n, s, s2, st, path);
      var end := PathState(n, st, path);
      assert FirmAt(n, s2, end);
      forall a, b | Candidate(n, s, end, a) && b in s && SameSlot(a, b) ensures a == b {
        CandidateGrows(n, s, s2, end, a);
      }
    }
  }

  /** Where nobody equivocates every candidate is firm. */
  lemma NoEquivocationIsFirm(n: Network, s: set<Event>, st: State)
    requires NoEquivocation(s)
    ensures IdsUnique(s) && Firm(n, s, st)
  {
    hide Elected, BackedLater;
  }

  /** In state `st` the elected leader has at most one event for the next round. */
  ghost predicate LeaderOnce(n: Network, s: set<Event>, st: State) {
    forall a, b :: a in s && b in s && SameSlot(a, b) && Leads(n, st, a) ==> a == b
  }

  ghost predicate Leads(n: Network, st: State, e: Event) {
    e.round == st.last + 1 && Elected(n.sha, n.stakes, n.total, e.round, st.seed) == Some(e.creator)
  }

  /** A sequence of events each of which is its creator's while that creator leads, whether or not supported. */
  ghost predicate LeadPath(n: Network, s: set<Event>, st: State, path: seq<Event>)
    decreases path
  {
    path == [] || (path[0] in s && Leads(n, st, path[0]) && LeadPath(n, s, Next(n, path[0]), path[1..]))
  }

  /** Wherever leaders' events lead from `st`, the next leader has at most one event for its round. */
  ghost predicate LeadersOnce(n: Network, s: set<Event>, st: State) {
    forall path :: LeadPath(n, s, st, path) ==> LeaderOnce(n, s, PathState(n, st, path))
  }

  lemma {:induction false} CandidatesLead(n: Network, s: set<Event>, s2: set<Event>, st: State, path: seq<Event>)
    requires IdsUnique(s) && s <= s2 && CandidatePath(n, s, st, path)
    ensures LeadPath(n, s2, st, path)
    decreases path
  {
    hide IdsUnique, Elected, BackedLater;
    if path != [] {
      CandidatesLead(n, s, s2, Next(n, path[0]), path[1..]);
    }
  }

  lemma {:induction false} LeadConcat(n: Network, s: set<Event>, st: State, p: seq<Event>, q: seq<Event>)
    requires LeadPath(n, s, st, p) && LeadPath(n, s, PathState(n, st, p), q)
    ensures LeadPath(n, s, st, p + q) && PathState(n, st, p + q) == PathState(n, PathState(n, st, p), q)
    decreases p
  {
    hide Leads;
    if p == [] {
      assert p + q == q;
    } else {
      assert (p + q)[0] == p[0] && (p + q)[1..] == p[1..] + q;
      LeadConcat(n, s, Next(n, p[0]), p[1..], q);
    }
  }

  lemma LeadersOnceNext(n: Network, s: set<Event>, st: State, e: Event)
    requires LeadersOnce(n, s, st) && e in s && Leads(n, st, e)
    ensures LeadersOnce(n, s, Next(n, e))
  {
    hide Leads, LeaderOnce;
    forall path | LeadPath(n, s, Next(n, e), path) ensures LeaderOnce(n, s, PathState(n, Next(n, e), path)) {
      assert ([e] + path)[1..] == path;
      assert LeadPath(n, s, st, [e] + path);
    }
  }

  /** Two such sequences never part where every leader has at most one event. */
  lemma {:induction false} LeadsCompare(n: Network, s: set<Event>, st: State, p: seq<Event>, q: seq<Event>)
    requires LeadersOnce(n, s, st) && LeadPath(n, s, st, p) && LeadPath(n, s, st, q)
    ensures p <= q || q <= p
    decreases p
  {
    hide LeadersOnce, Elected;
    if p != [] && q != [] {
      LeaderOnceHere(n, s, st);
      assert SameSlot(p[0], q[0]);
      LeadersOnceNext(n, s, st, p[0]);
      LeadsCompare(n, s, Next(n, p[0]), p[1..], q[1..]);
      assert p == [p[0]] + p[1..] && q == [q[0]] + q[1..];
    }
  }

  lemma LeaderOnceHere(n: Network, s: set<Event>, st: State)
    requires LeadersOnce(n, s, st)
    ensures LeaderOnce(n, s, st)
  {
    hide LeaderOnce;
    assert LeadPath(n, s, st, []);
  }

  /** Only equivocation by a leader, for the round it leads, can matter. */
  lemma OnlyLeadersMatter(n: Network, s: set<Event>, st: State)
    requires IdsUnique(s) && forall path :: CandidatePath(n, s, st, path) ==> LeaderOnce(n, s, PathState(n, st, path))
    ensures Firm(n, s, st)
  {
    hide IdsUnique, BackedLater, CandidatePath, Elected;
    forall path | CandidatePath(n, s, st, path) ensures FirmAt(n, s, PathState(n, st, path)) {
      var end := PathState(n, st, path);
      forall a, b | Candidate(n, s, end, a) && b in s && SameSlot(a, b) ensures a == b {
        assert Leads(n, end, a);
      }
    }
  }

  lemma FirmIsUnambiguous(n: Network, s: set<Event>, st: State)
    requires IdsUnique(s) && Firm(n, s, st)
    ensures Unambiguous(n, s, st)
  {
    hide IdsUnique, BackedLater, CandidatePath, Elected;
    forall path | CandidatePath(n, s, st, path) ensures OneCandidate(n, s, PathState(n, st, path)) {
      assert FirmAt(n, s, PathState(n, st, path));
    }
  }

  /** Two paths of candidates never part where at most one event is a candidate. */
  lemma {:induction false} PathsCompare(n: Network, s: set<Event>, st: State, p: seq<Event>, q: seq<Event>)
    requires IdsUnique(s) && Unambiguous(n, s, st) && CandidatePath(n, s, st, p) && CandidatePath(n, s, st, q)
    ensures p <= q || q <= p
    decreases p
  {
    hide IdsUnique, Unambiguous, Candidate;
    if p != [] && q != [] {
      UnambiguousHere(n, s, st);
      assert p[0] == q[0];
      UnambiguousNext(n, s, st, p[0]);
      PathsCompare(n, s, Next(n, p[0]), p[1..], q[1..]);
      assert p == [p[0]] + p[1..] && q == [q[0]] + q[1..];
    }
  }

  // ---------------------------------------------------------------- growth of the DAG

  /** `d2` keeps at least what `d` keeps. */
  ghost predicate Grows(d: Dag, s: set<Event>, d2: Dag, s2: set<Event>) {
    Keeps(d, s) && Keeps(d2, s2) && s <= s2 && IdsUnique(s) && IdsUnique(s2)
  }

  /** A decision on a firm candidate stays available and stays the same as the DAG grows. */
  lemma CheckMonotone(n: Network, d: Dag, s: set<Event>, d2: Dag, s2: set<Event>, st: State)
    requires WellFormed(n) && Grows(d, s, d2, s2) && Firm(n, s2, st)
    requires st.last < d.maxRound && Check(n, d, st, st.last + 1).Some?
    ensures st.last < d2.maxRound && Check(n, d2, st, st.last + 1).Some?
    ensures Decide(Check(n, d2, st, st.last + 1).value) == Decide(Check(n, d, st, st.last + 1).value)
    ensures Check(n, d2, st, st.last + 1).value.supportRound <= Check(n, d, st, st.last + 1).value.supportRound
  {
    hide Keeps, IdsUnique, Check, Firm, Candidate, FirstSupport, EventAt, WellFormed;
    var e := CheckIsCandidate(n, d, s, st);
    CandidateGrows(n, s, s2, st, e);
    FirmLookup(n, d2, s2, st, e);
    CandidateFound(n, d2, s2, st, e);
    CheckSupports(n, d, st, st.last + 1);
    CheckSupports(n, d2, st, st.last + 1);
    SupportNotLater(n, d, s, d2, s2, e.id, Wrap(st.last as int + 2));
  }

  lemma FirmLookup(n: Network, d: Dag, s: set<Event>, st: State, e: Event)
    requires Keeps(d, s) && IdsUnique(s) && Firm(n, s, st) && Candidate(n, s, st, e)
    ensures EventAt(d, e.creator, e.round) == Some(e)
  {
    hide Keeps, IdsUnique, EventAt, Firm, Candidate;
    CandidateRound(n, s, st, e);
    FirmHere(n, s, st);
    EventAtHeld(d, s, e.creator, e.round);
  }

  lemma CheckSupports(n: Network, d: Dag, st: State, round: U64)
    requires Check(n, d, st, round).Some?
    ensures var c := Check(n, d, st, round).value;
            FirstSupport(n, d, c.anchor, Wrap(round as int + 1)) == Some(c.supportRound)
  {
    hide FirstSupport, Elected, EventAt;
  }

  lemma SupportNotLater(n: Network, d: Dag, s: set<Event>, d2: Dag, s2: set<Event>, anchor: EventId, from: nat)
    requires WellFormed(n) && Grows(d, s, d2, s2)
    requires FirstSupport(n, d, anchor, from).Some? && FirstSupport(n, d2, anchor, from).Some?
    ensures FirstSupport(n, d2, anchor, from).value <= FirstSupport(n, d, anchor, from).value
  {
    hide Keeps, IdsUnique, Supported, SupportedIn, WellFormed, FirstSupport;
    var q := FirstSupport(n, d, anchor, from).value;
    SupportKept(n, d, s, anchor, q);
    SupportMonotone(n, s, s2, anchor, q);
    SupportKept(n, d2, s2, anchor, q);
    SupportNamesRound(n, s2, anchor, q);
    KeptRounds(d2, s2);
  }

  lemma KeptRounds(d: Dag, s: set<Event>)
    requires Keeps(d, s)
    ensures forall e :: e in s ==> e.round <= d.maxRound
  {
  }

  /** Advancing on a DAG and then on a larger one is advancing on the larger one, as long as candidates are firm. */
  lemma {:induction false} AdvanceInStages(n: Network, d: Dag, s: set<Event>, d2: Dag, s2: set<Event>, st: State)
    requires WellFormed(n) && Grows(d, s, d2, s2) && Firm(n, s2, st)
    ensures var first := Advance(n, d, st);
            var later := Advance(n, d2, first.1);
            var once := Advance(n, d2, st);
            Decisions(once.0) == Decisions(first.0) + Decisions(later.0) && once.1 == later.1
    decreases d.maxRound - st.last
  {
    hide Keeps, IdsUnique, Check, Advance, Firm, Candidate;
    if st.last < d.maxRound && Check(n, d, st, st.last + 1).Some? {
      CheckMonotone(n, d, s, d2, s2, st);
      var next := AdvanceContinues(n, d, st);
      var next2 := AdvanceContinues(n, d2, st);
      var e := CheckIsCandidate(n, d, s, st);
      CandidateGrows(n, s, s2, st, e);
      FirmNext(n, s2, st, e);
      AdvanceInStages(n, d, s, d2, s2, next);
    } else {
      AdvanceStops(n, d, st);
    }
  }
}
