/** Safety of the commit rule over whole runs of a node. */
module Agreement {
  import opened Common
  import opened Leader
  import opened DagModel
  import opened Commit
  import opened Candidates

  /** A node stores events and, whenever it likes, tries to advance. */
  datatype Step = Deliver(event: Event) | TryAdvance

  datatype Node = Node(dag: Dag, state: State, history: seq<CommitResult>)

  ghost function Take(n: Network, node: Node, step: Step): Node {
    match step
    case Deliver(e) => node.(dag := Inserted(node.dag, e))
    case TryAdvance =>
      var r := Advance(n, node.dag, node.state);
      node.(state := r.1, history := node.history + r.0)
  }

  ghost function Run(n: Network, seed: Digest, steps: seq<Step>): Node {
    if steps == [] then Node(EMPTY_DAG, State(0, seed), [])
    else Take(n, Run(n, seed, steps[..|steps| - 1]), steps[|steps| - 1])
  }

  lemma RunUnfolds(n: Network, seed: Digest, steps: seq<Step>)
    requires steps != []
    ensures Run(n, seed, steps) == Take(n, Run(n, seed, steps[..|steps| - 1]), steps[|steps| - 1])
  {
  }

  lemma RunStarts(n: Network, seed: Digest)
    ensures Run(n, seed, []) == Node(EMPTY_DAG, State(0, seed), [])
  {
  }

  ghost function Delivered(steps: seq<Step>): set<Event> {
    set i | 0 <= i < |steps| && steps[i].Deliver? :: steps[i].event
  }

  lemma DeliveredLast(steps: seq<Step>)
    requires steps != []
    ensures var last := steps[|steps| - 1];
            Delivered(steps) == if last.Deliver? then Delivered(steps[..|steps| - 1]) + {last.event}
                                else Delivered(steps[..|steps| - 1])
  {
    var rest, last := steps[..|steps| - 1], steps[|steps| - 1];
    forall e | e in Delivered(rest) ensures e in Delivered(steps) {
      var i :| 0 <= i < |rest| && rest[i].Deliver? && rest[i].event == e;
      assert steps[i] == rest[i];
    }
    forall e | e in Delivered(steps) && !(last.Deliver? && e == last.event) ensures e in Delivered(rest) {
      var i :| 0 <= i < |steps| && steps[i].Deliver? && steps[i].event == e;
      assert rest[i] == steps[i];
    }
  }

  lemma SubsetKeeps(s: set<Event>, s2: set<Event>)
    requires s <= s2 && NoEquivocation(s2)
    ensures NoEquivocation(s)
  {
    assert forall e :: e in s ==> e in s2;
  }

  lemma NothingDelivered()
    ensures Delivered([]) == {}
  {
  }

  lemma EmptyHolds()
    ensures Holds(EMPTY_DAG, {}) && Keeps(EMPTY_DAG, {})
  {
  }

  /** A node's store holds exactly the events delivered to it. */
  lemma {:induction false} RunHolds(n: Network, seed: Digest, steps: seq<Step>)
    requires NoEquivocation(Delivered(steps))
    ensures Holds(Run(n, seed, steps).dag, Delivered(steps))
  {
    hide Holds, Delivered, NoEquivocation, Advance, Inserted;
    if steps == [] {
      EmptyHolds();
      NothingDelivered();
    } else {
      var rest, last := steps[..|steps| - 1], steps[|steps| - 1];
      DeliveredLast(steps);
      SubsetKeeps(Delivered(rest), Delivered(steps));
      RunHolds(n, seed, rest);
      if last.Deliver? {
        InsertHolds(Run(n, seed, rest).dag, Delivered(rest), last.event);
      }
    }
  }

  /** Equivocation or not, a node's store keeps exactly the events delivered to it. */
  lemma {:induction false} RunKeeps(n: Network, seed: Digest, steps: seq<Step>)
    requires IdsUnique(Delivered(steps))
    ensures Keeps(Run(n, seed, steps).dag, Delivered(steps))
  {
    hide Keeps, Delivered, IdsUnique, Advance, Inserted;
    if steps == [] {
      EmptyHolds();
      NothingDelivered();
    } else {
      var rest, last := steps[..|steps| - 1], steps[|steps| - 1];
      DeliveredLast(steps);
      SubsetUnique(Delivered(rest), Delivered(steps));
      RunKeeps(n, seed, rest);
      if last.Deliver? {
        InsertKeeps(Run(n, seed, rest).dag, Delivered(rest), last.event);
      }
    }
  }

  /** Whatever a node decides on events of `s` is a path of candidates of `s`. */
  lemma {:induction false} RunPath(n: Network, seed: Digest, steps: seq<Step>, s: set<Event>) returns (path: seq<Event>)
    requires WellFormed(n) && IdsUnique(s) && Delivered(steps) <= s
    ensures CandidatePath(n, s, State(0, seed), path) && PathState(n, State(0, seed), path) == Run(n, seed, steps).state
    ensures Decisions(Run(n, seed, steps).history) == DecisionsOf(path)
  {
    hide Keeps, Delivered, IdsUnique, Advance, Inserted, CandidatePath, PathState, WellFormed, Run;
    if steps == [] {
      RunStarts(n, seed);
      EmptyPath(n, s, State(0, seed));
      path := [];
    } else {
      var rest, last := steps[..|steps| - 1], steps[|steps| - 1];
      RunUnfolds(n, seed, steps);
      DeliveredLast(steps);
      path := RunPath(n, seed, rest, s);
      if last.TryAdvance? {
        var more := MorePath(n, seed, rest, s);
        PathConcat(n, s, State(0, seed), path, more);
        DecisionsConcat(path, more);
        var node := Run(n, seed, rest);
        HistoryConcat(node.history, Advance(n, node.dag, node.state).0);
        path := path + more;
      }
    }
  }

  lemma HistoryConcat(a: seq<CommitResult>, b: seq<CommitResult>)
    ensures Decisions(a + b) == Decisions(a) + Decisions(b)
  {
  }

  lemma EmptyPath(n: Network, s: set<Event>, st: State)
    requires IdsUnique(s)
    ensures CandidatePath(n, s, st, []) && PathState(n, st, []) == st
  {
  }

  lemma MorePath(n: Network, seed: Digest, steps: seq<Step>, s: set<Event>) returns (more: seq<Event>)
    requires WellFormed(n) && IdsUnique(s) && Delivered(steps) <= s
    ensures var node := Run(n, seed, steps);
            && CandidatePath(n, s, node.state, more) &&
                PathState(n, node.state, more) == Advance(n, node.dag, node.state).1
            && Decisions(Advance(n, node.dag, node.state).0) == DecisionsOf(more)
  {
    hide Keeps, Delivered, IdsUnique, Advance, CandidatePath, WellFormed, Run, PathState;
    var node := Run(n, seed, steps);
    SubsetUnique(Delivered(steps), s);
    RunKeeps(n, seed, steps);
    more := AdvancePath(n, node.dag, Delivered(steps), node.state);
    PathGrows(n, Delivered(steps), s, node.state, more);
  }

  // ---------------------------------------------------------------- a node that stores a path last

  function Deliveries(events: seq<Event>): seq<Step> {
    seq(|events|, i requires 0 <= i < |events| => Deliver(events[i]))
  }

  lemma LastOfDeliveries(steps: seq<Step>, events: seq<Event>)
    requires events != []
    ensures var all, n := steps + Deliveries(events), |events| - 1;
            all != [] && all[..|all| - 1] == steps + Deliveries(events[..n]) && all[|all| - 1] == Deliver(events[n])
  {
    var all, n := steps + Deliveries(events), |events| - 1;
    assert Deliveries(events)[..n] == Deliveries(events[..n]);
  }

  lemma NoDeliveries(steps: seq<Step>)
    ensures steps + Deliveries([]) == steps
  {
  }

  /** Deliveries decide nothing. */
  lemma {:induction false} RunDeliveries(n: Network, seed: Digest, steps: seq<Step>, events: seq<Event>)
    ensures var before, after := Run(n, seed, steps), Run(n, seed, steps + Deliveries(events));
            after.state == before.state && after.history == before.history
  {
    hide Run, Inserted, Advance, Deliveries;
    if events == [] {
      NoDeliveries(steps);
    } else {
      LastOfDeliveries(steps, events);
      RunUnfolds(n, seed, steps + Deliveries(events));
      RunDeliveries(n, seed, steps, events[..|events| - 1]);
    }
  }

  lemma {:induction false} DeliveredDeliveries(steps: seq<Step>, events: seq<Event>)
    ensures Delivered(steps + Deliveries(events)) == Delivered(steps) + set e | e in events
  {
    hide Delivered, Deliveries;
    if events == [] {
      NoDeliveries(steps);
    } else {
      var n := |events| - 1;
      LastOfDeliveries(steps, events);
      DeliveredLast(steps + Deliveries(events));
      DeliveredDeliveries(steps, events[..n]);
      assert events == events[..n] + [events[n]];
    }
  }

  /** The lookup by creator and round leads to `e`. */
  predicate Points(d: Dag, e: Event) {
    && (e.creator, e.round) in d.byCreatorRound && d.byCreatorRound[(e.creator, e.round)] == e.id
    && e.id in d.events && d.events[e.id] == e
  }

  ghost predicate Apart(events: seq<Event>) {
    forall j, k :: 0 <= j < k < |events| ==> events[j].round != events[k].round && events[j].id != events[k].id
  }

  /** Re-delivered events of different rounds are what the lookups find. */
  lemma {:induction false} LastDelivered(n: Network, seed: Digest, steps: seq<Step>, events: seq<Event>, i: nat)
    requires i < |events| && Apart(events)
    ensures Points(Run(n, seed, steps + Deliveries(events)).dag, events[i])
  {
    hide Run, Advance, LatestAfter, Deliveries;
    var last := |events| - 1;
    LastOfDeliveries(steps, events);
    RunUnfolds(n, seed, steps + Deliveries(events));
    if i < last {
      LastDelivered(n, seed, steps, events[..last], i);
      assert events[i].round != events[last].round && events[i].id != events[last].id;
    }
  }

  lemma PathDistinct(n: Network, s: set<Event>, st: State, path: seq<Event>)
    requires IdsUnique(s) && CandidatePath(n, s, st, path)
    ensures Apart(path) && forall e :: e in path ==> e in s
  {
    hide CandidatePath;
    forall j | 0 <= j < |path| ensures path[j] in s && path[j].round == st.last + 1 + j {
      PathRounds(n, s, st, path, j);
    }
  }

  lemma Enumerate(s: set<Event>) returns (events: seq<Event>)
    ensures forall e :: e in events <==> e in s
    decreases |s|
  {
    if s == {} {
      events := [];
    } else {
      var e :| e in s;
      var rest := Enumerate(s - {e});
      events := rest + [e];
    }
  }

  /** Some node is delivered all of `s`, then the path once more: it is then free to decide that path first. */
  lemma StoresPath(n: Network, seed: Digest, s: set<Event>, path: seq<Event>) returns (steps: seq<Step>)
    requires IdsUnique(s) && CandidatePath(n, s, State(0, seed), path)
    ensures Delivered(steps) == s && Run(n, seed, steps).state == State(0, seed) && Run(n, seed, steps).history == []
    ensures forall i :: 0 <= i < |path| ==>
            EventAt(Run(n, seed, steps).dag, path[i].creator, path[i].round) == Some(path[i])
  {
    hide CandidatePath, IdsUnique, EventAt, Points, Run, Delivered, Deliveries, Apart;
    var events := Enumerate(s);
    PathDistinct(n, s, State(0, seed), path);
    RunStarts(n, seed);
    NothingDelivered();
    var first := [] + Deliveries(events);
    RunDeliveries(n, seed, [], events);
    DeliveredDeliveries([], events);
    RunDeliveries(n, seed, first, path);
    DeliveredDeliveries(first, path);
    steps := first + Deliveries(path);
    FindsDelivered(n, seed, first, path);
    assert s == (set e | e in events) && (set e | e in path) <= s;
  }

  lemma FindsDelivered(n: Network, seed: Digest, steps: seq<Step>, events: seq<Event>)
    requires Apart(events)
    ensures forall i :: 0 <= i < |events| ==>
              EventAt(Run(n, seed, steps + Deliveries(events)).dag, events[i].creator, events[i].round) ==
                      Some(events[i])
  {
    hide Run, Deliveries, Apart;
    forall i | 0 <= i < |events|
      ensures EventAt(Run(n, seed, steps + Deliveries(events)).dag, events[i].creator, events[i].round) ==
              Some(events[i])
    {
      LastDelivered(n, seed, steps, events, i);
    }
  }

  lemma RunThen(n: Network, seed: Digest, steps: seq<Step>, step: Step)
    ensures Run(n, seed, steps + [step]) == Take(n, Run(n, seed, steps), step)
  {
    var t := steps + [step];
    assert t[..|t| - 1] == steps && t[|t| - 1] == step;
  }

  /** Any path of candidates is what some node decides first. */
  lemma DecidesPath(n: Network, seed: Digest, s: set<Event>, path: seq<Event>) returns (steps: seq<Step>)
    requires IdsUnique(s) && CandidatePath(n, s, State(0, seed), path)
    ensures Delivered(steps) == s && DecisionsOf(path) <= Decisions(Run(n, seed, steps).history)
  {
    var before := StoresPath(n, seed, s, path);
    hide CandidatePath, IdsUnique, EventAt, Advance, Delivered;
    steps := before + [TryAdvance];
    RunThen(n, seed, before, TryAdvance);
    assert steps[..|steps| - 1] == before;
    DeliveredLast(steps);
    RunKeeps(n, seed, before);
    AdvanceFollows(n, Run(n, seed, before).dag, s, State(0, seed), path);
  }

  // ---------------------------------------------------------------- agreement, exactly

  ghost predicate Comparable(n: Network, seed: Digest, a: seq<Step>, b: seq<Step>) {
    var ha, hb := Decisions(Run(n, seed, a).history), Decisions(Run(n, seed, b).history);
    ha <= hb || hb <= ha
  }

  /** Any two nodes that receive events of `s`, each any of them, in any order and repeatedly, decide comparable
      histories. */
  ghost predicate AlwaysAgree(n: Network, seed: Digest, s: set<Event>) {
    forall a, b :: Delivered(a) <= s && Delivered(b) <= s ==> Comparable(n, seed, a, b)
  }

  lemma UnambiguousAgrees(n: Network, seed: Digest, s: set<Event>, a: seq<Step>, b: seq<Step>)
    requires WellFormed(n) && IdsUnique(s) && Unambiguous(n, s, State(0, seed)) && Delivered(a) <= s &&
             Delivered(b) <= s
    ensures Comparable(n, seed, a, b)
  {
    hide IdsUnique, Unambiguous, CandidatePath, Delivered, Run;
    var p := RunPath(n, seed, a, s);
    var q := RunPath(n, seed, b, s);
    PathsCompare(n, s, State(0, seed), p, q);
  }

  lemma PartedPrefixes(p: seq<Event>, a: Event, b: Event, ha: seq<Decision>, hb: seq<Decision>)
    requires a.id != b.id && DecisionsOf(p + [a]) <= ha && DecisionsOf(p + [b]) <= hb
    ensures !(ha <= hb) && !(hb <= ha)
  {
    assert ha[|p|] == DecisionsOf(p + [a])[|p|] == DecisionOf(a);
    assert hb[|p|] == DecisionsOf(p + [b])[|p|] == DecisionOf(b);
  }

  lemma AmbiguousParts(n: Network, seed: Digest, s: set<Event>, path: seq<Event>, a: Event, b: Event)
    requires IdsUnique(s) && CandidatePath(n, s, State(0, seed), path) && a != b
    requires Candidate(n, s, PathState(n, State(0, seed), path), a) &&
             Candidate(n, s, PathState(n, State(0, seed), path), b)
    ensures exists x, y :: Delivered(x) <= s && Delivered(y) <= s && !Comparable(n, seed, x, y)
  {
    var st := State(0, seed);
    SnocPath(n, s, st, path, a);
    SnocPath(n, s, st, path, b);
    assert a.id != b.id by {
      CandidateRound(n, s, PathState(n, st, path), a);
      CandidateRound(n, s, PathState(n, st, path), b);
    }
    hide IdsUnique, CandidatePath, Candidate, Delivered, Run;
    var x := DecidesPath(n, seed, s, path + [a]);
    var y := DecidesPath(n, seed, s, path + [b]);
    PartedPrefixes(path, a, b, Decisions(Run(n, seed, x).history), Decisions(Run(n, seed, y).history));
    assert !Comparable(n, seed, x, y);
  }

  lemma SnocPath(n: Network, s: set<Event>, st: State, path: seq<Event>, e: Event)
    requires IdsUnique(s) && CandidatePath(n, s, st, path) && Candidate(n, s, PathState(n, st, path), e)
    ensures CandidatePath(n, s, st, path + [e]) && PathState(n, st, path + [e]) == Next(n, e)
  {
    hide IdsUnique, Candidate;
    assert [e][1..] == [];
    PathConcat(n, s, st, path, [e]);
  }

  /** All nodes that receive events of `s` agree exactly when, wherever candidates lead, at most one event is a
      candidate. */
  lemma AgreementExactly(n: Network, seed: Digest, s: set<Event>)
    requires WellFormed(n) && IdsUnique(s)
    ensures AlwaysAgree(n, seed, s) <==> Unambiguous(n, s, State(0, seed))
  {
    hide IdsUnique, CandidatePath, Candidate, Delivered, Comparable;
    if Unambiguous(n, s, State(0, seed)) {
      forall a, b | Delivered(a) <= s && Delivered(b) <= s ensures Comparable(n, seed, a, b) {
        UnambiguousAgrees(n, seed, s, a, b);
      }
    } else {
      var path :| CandidatePath(n, s, State(0, seed), path) && !OneCandidate(n, s, PathState(n, State(0, seed), path));
      var end := PathState(n, State(0, seed), path);
      var a, b :| Candidate(n, s, end, a) && Candidate(n, s, end, b) && a != b;
      AmbiguousParts(n, seed, s, path, a, b);
    }
  }

  /** Whatever a node decides is a sequence of leaders' events, for every validator set. */
  lemma {:induction false} RunLeads(n: Network, seed: Digest, steps: seq<Step>, s: set<Event>)
                                    returns (path: seq<Event>)
    requires IdsUnique(s) && Delivered(steps) <= s
    ensures LeadPath(n, s, State(0, seed), path) && PathState(n, State(0, seed), path) == Run(n, seed, steps).state
    ensures Decisions(Run(n, seed, steps).history) == DecisionsOf(path)
  {
    hide Keeps, Delivered, IdsUnique, Advance, Inserted, LeadPath, PathState, Run, CandidatePath;
    if steps == [] {
      RunStarts(n, seed);
      EmptyLead(n, s, State(0, seed));
      path := [];
    } else {
      var rest, last := steps[..|steps| - 1], steps[|steps| - 1];
      RunUnfolds(n, seed, steps);
      DeliveredLast(steps);
      path := RunLeads(n, seed, rest, s);
      if last.TryAdvance? {
        var node := Run(n, seed, rest);
        SubsetUnique(Delivered(rest), s);
        RunKeeps(n, seed, rest);
        var more := AdvancePath(n, node.dag, Delivered(rest), node.state);
        CandidatesLead(n, Delivered(rest), s, node.state, more);
        LeadConcat(n, s, State(0, seed), path, more);
        DecisionsConcat(path, more);
        HistoryConcat(node.history, Advance(n, node.dag, node.state).0);
        path := path + more;
      }
    }
  }

  lemma EmptyLead(n: Network, s: set<Event>, st: State)
    ensures LeadPath(n, s, st, []) && PathState(n, st, []) == st
  {
  }

  /** Agreement for every validator set, overflowing stakes included, as long as each leader has one event for its
      round. */
  lemma LeadersAgree(n: Network, seed: Digest, s: set<Event>, a: seq<Step>, b: seq<Step>)
    requires IdsUnique(s) && LeadersOnce(n, s, State(0, seed)) && Delivered(a) <= s && Delivered(b) <= s
    ensures Comparable(n, seed, a, b)
  {
    hide IdsUnique, LeadersOnce, LeadPath, Delivered, Run;
    var p := RunLeads(n, seed, a, s);
    var q := RunLeads(n, seed, b, s);
    LeadsCompare(n, s, State(0, seed), p, q);
  }

  lemma NoEquivocationLeadsOnce(n: Network, s: set<Event>, st: State)
    requires NoEquivocation(s)
    ensures IdsUnique(s) && LeadersOnce(n, s, st)
  {
    hide Leads, LeadPath;
  }

  /** Safety: two nodes that see different parts of one DAG without equivocation, in any order and advancing whenever
      they like, decide histories one of which extends the other. */
  lemma Agree(n: Network, seed: Digest, a: seq<Step>, b: seq<Step>)
    requires NoEquivocation(Delivered(a) + Delivered(b))
    ensures var ha, hb := Decisions(Run(n, seed, a).history), Decisions(Run(n, seed, b).history);
            ha <= hb || hb <= ha
  {
    hide NoEquivocation, Delivered, Run, LeadersOnce;
    var s := Delivered(a) + Delivered(b);
    NoEquivocationLeadsOnce(n, s, State(0, seed));
    LeadersAgree(n, seed, s, a, b);
    assert Comparable(n, seed, a, b);
  }

  // ---------------------------------------------------------------- advancing along the way, exactly

  /** What a run has decided, plus what it could decide now, is what a fresh detector would decide now. */
  lemma {:induction false} RunCatchesUp(n: Network, seed: Digest, steps: seq<Step>)
    requires WellFormed(n) && IdsUnique(Delivered(steps)) && Firm(n, Delivered(steps), State(0, seed))
    ensures var node := Run(n, seed, steps);
            var now, anew := Advance(n, node.dag, node.state), Advance(n, node.dag, State(0, seed));
            Decisions(node.history) + Decisions(now.0) == Decisions(anew.0) && now.1 == anew.1
  {
    hide Keeps, Delivered, Advance, IdsUnique, Firm, WellFormed, Inserted, CandidatePath;
    if steps != [] {
      var rest, last := steps[..|steps| - 1], steps[|steps| - 1];
      DeliveredLast(steps);
      SubsetUnique(Delivered(rest), Delivered(steps));
      FirmShrinks(n, Delivered(rest), Delivered(steps), State(0, seed));
      RunCatchesUp(n, seed, rest);
      RunKeeps(n, seed, rest);
      RunKeeps(n, seed, steps);
      var node, node2 := Run(n, seed, rest), Run(n, seed, steps);
      var path := RunPath(n, seed, rest, Delivered(steps));
      FirmAfter(n, Delivered(steps), State(0, seed), path);
      if last.Deliver? {
        AdvanceInStages(n, node.dag, Delivered(rest), node2.dag, Delivered(steps), State(0, seed));
        AdvanceInStages(n, node.dag, Delivered(rest), node2.dag, Delivered(steps), node.state);
      } else {
        AdvanceOnce(n, node.dag, Delivered(rest), node.state);
      }
    }
  }

  /** Trying again on the same DAG decides nothing new. */
  lemma AdvanceOnce(n: Network, d: Dag, s: set<Event>, st: State)
    requires WellFormed(n) && Keeps(d, s) && IdsUnique(s) && Firm(n, s, st)
    ensures var r := Advance(n, d, st); Advance(n, d, r.1).0 == [] && Advance(n, d, r.1).1 == r.1
  {
    hide Keeps, Advance, IdsUnique, Firm;
    AdvanceInStages(n, d, s, d, s, st);
    var r := Advance(n, d, st);
    assert |Decisions(Advance(n, d, r.1).0)| == 0;
  }

  /** One more try brings the node to what a fresh detector decides on its DAG. */
  ghost predicate CatchesUp(n: Network, seed: Digest, steps: seq<Step>) {
    var node := Run(n, seed, steps + [TryAdvance]);
    var once := Advance(n, node.dag, State(0, seed));
    Decisions(node.history) == Decisions(once.0) && node.state == once.1
  }

  /** Advancing along the way decides the same rounds, anchors, leaders and seed as advancing once at the end. */
  lemma Incremental(n: Network, seed: Digest, steps: seq<Step>)
    requires WellFormed(n) && IdsUnique(Delivered(steps)) && Firm(n, Delivered(steps), State(0, seed))
    ensures CatchesUp(n, seed, steps)
  {
    hide Delivered, Advance, IdsUnique, Firm, WellFormed, Inserted;
    RunThen(n, seed, steps, TryAdvance);
    RunCatchesUp(n, seed, steps);
    var node := Run(n, seed, steps);
    var r := Advance(n, node.dag, node.state);
    assert Decisions(node.history + r.0) == Decisions(node.history) + Decisions(r.0);
  }

  /** On one store, the first decision from a state is the event the lookup finds. */
  lemma FirstIsLookup(n: Network, d: Dag, st: State, b: Event)
    requires st.last + 1 == b.round && Elected(n.sha, n.stakes, n.total, b.round, st.seed) == Some(b.creator)
    requires EventAt(d, b.creator, b.round) == Some(b)
    ensures Advance(n, d, st).0 != [] ==> Advance(n, d, st).0[0].anchor == b.id
  {
    hide Elected, EventAt, FirstSupport;
  }

  /** A candidate that shares its slot can be decided and then hidden from a fresh detector. */
  lemma SharedSlotBreaks(n: Network, seed: Digest, s: set<Event>, path: seq<Event>, a: Event, b: Event)
    requires IdsUnique(s) && CandidatePath(n, s, State(0, seed), path) &&
             Candidate(n, s, PathState(n, State(0, seed), path), a)
    requires b in s && SameSlot(a, b) && a != b
    ensures exists steps :: Delivered(steps) <= s && !CatchesUp(n, seed, steps)
  {
    var st := State(0, seed);
    var end := PathState(n, st, path);
    CandidateRound(n, s, end, a);
    assert a.id != b.id;
    SnocPath(n, s, st, path, a);
    var first := DecidesPath(n, seed, s, path + [a]);
    var steps := HidesLast(n, seed, s, path, a, b, first);
    hide IdsUnique, CandidatePath, Candidate, Delivered, Run, Advance;
    assert !CatchesUp(n, seed, steps);
  }

  /** Re-delivering the path and then `b` makes the lookups find them, whatever was decided before. */
  lemma HidesLast(n: Network, seed: Digest, s: set<Event>, path: seq<Event>, a: Event, b: Event, first: seq<Step>)
                  returns (steps: seq<Step>)
    requires IdsUnique(s) && CandidatePath(n, s, State(0, seed), path) &&
             Candidate(n, s, PathState(n, State(0, seed), path), a)
    requires b in s && SameSlot(a, b) && a.id != b.id && Delivered(first) == s
    requires DecisionsOf(path + [a]) <= Decisions(Run(n, seed, first).history)
    ensures Delivered(steps) == s && !CatchesUp(n, seed, steps)
  {
    hide IdsUnique, CandidatePath, Delivered, Run, Advance, EventAt, Elected, Deliveries, Apart, BackedLater;
    var st := State(0, seed);
    var end, again := PathState(n, st, path), path + [b];
    AgainDistinct(n, s, st, path, a, b);
    steps := first + Deliveries(again);
    RunDeliveries(n, seed, first, again);
    DeliveredDeliveries(first, again);
    FindsDelivered(n, seed, first, again);
    assert Delivered(steps) == s;
    RunKeeps(n, seed, steps);
    var d := Run(n, seed, steps).dag;
    assert forall i :: 0 <= i < |path| ==> again[i] == path[i];
    assert again[|path|] == b;
    AdvanceFollows(n, d, s, st, path);
    FirstIsLookup(n, d, end, b);
    RunThen(n, seed, steps, TryAdvance);
    HistoryParts(path, a, b, Run(n, seed, first).history, Run(n, seed, steps + [TryAdvance]).history,
                 Advance(n, d, st).0, Advance(n, d, end).0);
  }

  lemma AgainDistinct(n: Network, s: set<Event>, st: State, path: seq<Event>, a: Event, b: Event)
    requires IdsUnique(s) && CandidatePath(n, s, st, path) && Candidate(n, s, PathState(n, st, path), a) && b in s &&
             SameSlot(a, b)
    ensures Apart(path + [b]) && forall e :: e in path + [b] ==> e in s
  {
    SnocPath(n, s, st, path, a);
    PathDistinct(n, s, st, path + [a]);
    PathRounds(n, s, st, path + [a], |path|);
    hide CandidatePath, Candidate;
    var again := path + [b];
    forall j | 0 <= j < |again| ensures again[j] in s && again[j].round == (path + [a])[j].round {
      PathRounds(n, s, st, path + [a], j);
    }
  }

  lemma HistoryParts(path: seq<Event>, a: Event, b: Event, h: seq<CommitResult>, h2: seq<CommitResult>,
                     once: seq<CommitResult>, rest: seq<CommitResult>)
    requires a.id != b.id && h <= h2 && DecisionsOf(path + [a]) <= Decisions(h)
    requires Decisions(once) == DecisionsOf(path) + Decisions(rest) && (rest != [] ==> rest[0].anchor == b.id)
    ensures Decisions(h2) != Decisions(once)
  {
    var k := |path|;
    assert Decisions(h2)[k] == Decisions(h)[k] == DecisionsOf(path + [a])[k] == DecisionOf(a);
    if |once| > k {
      assert Decisions(once)[k] == Decisions(rest)[0] == Decide(rest[0]);
    } else {
      assert |Decisions(once)| != |Decisions(h2)|;
    }
  }

  /** Advancing along the way comes to the same as advancing once at the end, for every run on events of `s`,
      exactly when every candidate is its creator's only event of its round. */
  lemma IncrementalExactly(n: Network, seed: Digest, s: set<Event>)
    requires WellFormed(n) && IdsUnique(s)
    ensures (forall steps :: Delivered(steps) <= s ==> CatchesUp(n, seed, steps)) <==> Firm(n, s, State(0, seed))
  {
    hide CandidatePath, Candidate, Delivered, CatchesUp, WellFormed, IdsUnique;
    if Firm(n, s, State(0, seed)) {
      forall steps | Delivered(steps) <= s ensures CatchesUp(n, seed, steps) {
        SubsetUnique(Delivered(steps), s);
        FirmShrinks(n, Delivered(steps), s, State(0, seed));
        Incremental(n, seed, steps);
      }
    } else {
      var path :| CandidatePath(n, s, State(0, seed), path) && !FirmAt(n, s, PathState(n, State(0, seed), path));
      var end := PathState(n, State(0, seed), path);
      var a, b :| Candidate(n, s, end, a) && b in s && SameSlot(a, b) && a != b;
      SharedSlotBreaks(n, seed, s, path, a, b);
    }
  }

  /** A run's decisions are a prefix of what any larger set of events decides. */
  lemma HistoryBelow(n: Network, seed: Digest, steps: seq<Step>, d: Dag, s: set<Event>)
    requires WellFormed(n) && Keeps(d, s) && Delivered(steps) <= s && IdsUnique(s) && Firm(n, s, State(0, seed))
    ensures Decisions(Run(n, seed, steps).history) <= Decisions(Advance(n, d, State(0, seed)).0)
  {
    hide Keeps, Advance, IdsUnique, Delivered, Firm, Run;
    SubsetUnique(Delivered(steps), s);
    FirmShrinks(n, Delivered(steps), s, State(0, seed));
    RunCatchesUp(n, seed, steps);
    RunKeeps(n, seed, steps);
    AdvanceInStages(n, Run(n, seed, steps).dag, Delivered(steps), d, s, State(0, seed));
  }

  // ---------------------------------------------------------------- shape of a history

  lemma {:induction false} AdvanceRounds(n: Network, d: Dag, s: State, i: nat)
    requires i < |Advance(n, d, s).0|
    ensures Advance(n, d, s).0[i].round == s.last + 1 + i
    decreases i
  {
    hide Advance, Check;
    if s.last < d.maxRound && Check(n, d, s, s.last + 1).Some? {
      var next := AdvanceContinues(n, d, s);
      if i > 0 {
        AdvanceRounds(n, d, next, i - 1);
      }
    } else {
      AdvanceStops(n, d, s);
    }
  }

  lemma {:induction false} AdvanceCounts(n: Network, d: Dag, s: State)
    ensures Advance(n, d, s).1.last == s.last + |Advance(n, d, s).0|
    decreases d.maxRound - s.last
  {
    hide Advance, Check;
    if s.last < d.maxRound && Check(n, d, s, s.last + 1).Some? {
      var next := AdvanceContinues(n, d, s);
      AdvanceCounts(n, d, next);
    } else {
      AdvanceStops(n, d, s);
    }
  }

  lemma {:induction false} RunCounts(n: Network, seed: Digest, steps: seq<Step>)
    ensures Run(n, seed, steps).state.last == |Run(n, seed, steps).history|
  {
    hide Advance, Inserted;
    if steps != [] {
      var rest := steps[..|steps| - 1];
      RunCounts(n, seed, rest);
      AdvanceCounts(n, Run(n, seed, rest).dag, Run(n, seed, rest).state);
    }
  }

  /** Committed rounds are 1, 2, 3, ... without gaps, in every run. */
  lemma {:induction false} ContiguousRounds(n: Network, seed: Digest, steps: seq<Step>, i: nat)
    requires i < |Run(n, seed, steps).history|
    ensures Run(n, seed, steps).history[i].round == i + 1
  {
    hide Advance, Inserted;
    var rest := steps[..|steps| - 1];
    var node := Run(n, seed, rest);
    if i < |node.history| {
      ContiguousRounds(n, seed, rest, i);
    } else {
      RunCounts(n, seed, rest);
      AdvanceRounds(n, node.dag, node.state, i - |node.history|);
    }
  }

  lemma CheckLeast(n: Network, d: Dag, s: State, round: U64, q: U64)
    requires Check(n, d, s, round).Some?
    ensures var c := Check(n, d, s, round).value;
            && Wrap(c.round as int + 1) <= c.supportRound && Supported(n, d, c.anchor, c.supportRound)
            && (Wrap(c.round as int + 1) <= q < c.supportRound ==> !Supported(n, d, c.anchor, q))
  {
    hide Elected, Supported;
  }

  /** Each commit names the least later round at which a quorum reaches its anchor. */
  lemma {:induction false} LeastSupport(n: Network, d: Dag, s: State, i: nat, q: U64)
    requires i < |Advance(n, d, s).0|
    ensures var c := Advance(n, d, s).0[i];
            && Wrap(c.round as int + 1) <= c.supportRound && Supported(n, d, c.anchor, c.supportRound)
            && (Wrap(c.round as int + 1) <= q < c.supportRound ==> !Supported(n, d, c.anchor, q))
    decreases i
  {
    hide Advance, Check, Supported;
    if s.last < d.maxRound && Check(n, d, s, s.last + 1).Some? {
      var next := AdvanceContinues(n, d, s);
      if i > 0 {
        LeastSupport(n, d, next, i - 1, q);
      } else {
        CheckLeast(n, d, s, s.last + 1, q);
      }
    } else {
      AdvanceStops(n, d, s);
    }
  }
}
