/** The event store and reachability through strong parents. */
module DagModel {
  import opened Common
  import opened Validators

  type EventId = Digest

  datatype Event = Event(id: EventId, creator: ValidatorId, round: U64, strongParents: seq<EventId>)

  /** The five indices of the store. */
  datatype Dag = Dag(
    events: map<EventId, Event>,
    byCreatorRound: map<(ValidatorId, U64), EventId>,
    byRound: map<U64, seq<EventId>>,
    latest: map<ValidatorId, EventId>,
    maxRound: U64)

  const EMPTY_DAG := Dag(map[], map[], map[], map[], 0)

  function IdsAt(d: Dag, round: U64): seq<EventId> {
    if round in d.byRound then d.byRound[round] else []
  }

  /** The latest-event index after seeing `e`: replaced only by a strictly later round. */
  function LatestAfter(d: Dag, e: Event): map<ValidatorId, EventId> {
    if e.creator !in d.latest then d.latest[e.creator := e.id]
    else if d.latest[e.creator] in d.events && e.round > d.events[d.latest[e.creator]].round then
      d.latest[e.creator := e.id]
    else d.latest
  }

  function Inserted(d: Dag, e: Event): Dag {
    Dag(d.events[e.id := e],
        d.byCreatorRound[(e.creator, e.round) := e.id],
        d.byRound[e.round := IdsAt(d, e.round) + [e.id]],
        LatestAfter(d, e),
        Max(d.maxRound, e.round))
  }

  function EventAt(d: Dag, creator: ValidatorId, round: U64): Option<Event> {
    if (creator, round) in d.byCreatorRound && d.byCreatorRound[(creator, round)] in d.events then
      Some(d.events[d.byCreatorRound[(creator, round)]])
    else None
  }

  // ---------------------------------------------------------------- what a store holds

  /** One event per id and one id per creator and round. */
  ghost predicate NoEquivocation(s: set<Event>) {
    forall a, b :: a in s && b in s && (a.id == b.id || (a.creator == b.creator && a.round == b.round)) ==> a == b
  }

  ghost predicate HoldsEvents(d: Dag, s: set<Event>) {
    && (forall e :: e in s ==> e.id in d.events && d.events[e.id] == e)
    && (forall id :: id in d.events ==> d.events[id] in s && d.events[id].id == id)
  }

  ghost predicate HoldsByCreator(d: Dag, s: set<Event>) {
    && (forall e :: e in s ==>
          (e.creator, e.round) in d.byCreatorRound && d.byCreatorRound[(e.creator, e.round)] == e.id)
    && (forall k :: k in d.byCreatorRound ==>
          var id := d.byCreatorRound[k];
          id in d.events && d.events[id].creator == k.0 && d.events[id].round == k.1)
  }

  ghost predicate HoldsByRound(d: Dag, s: set<Event>) {
    && (forall e :: e in s ==> e.id in IdsAt(d, e.round))
    && (forall r: U64, id :: id in IdsAt(d, r) ==> id in d.events && d.events[id].round == r)
  }

  ghost predicate HoldsRounds(d: Dag, s: set<Event>) {
    && (forall e :: e in s ==> e.round <= d.maxRound)
    && (d.maxRound == 0 || exists e :: e in s && e.round == d.maxRound)
  }

  /** The latest event of a creator is one of its highest round. */
  ghost predicate LatestOf(d: Dag, s: set<Event>, c: ValidatorId)
    requires c in d.latest
  {
    && d.latest[c] in d.events && d.events[d.latest[c]].creator == c
    && forall e :: e in s && e.creator == c ==> e.round <= d.events[d.latest[c]].round
  }

  ghost predicate HoldsLatest(d: Dag, s: set<Event>) {
    (forall e :: e in s ==> e.creator in d.latest) && (forall c :: c in d.latest ==> LatestOf(d, s, c))
  }

  /** Every index of the store describes exactly the events of `s`. */
  ghost predicate Holds(d: Dag, s: set<Event>) {
    HoldsEvents(d, s) && HoldsByCreator(d, s) && HoldsByRound(d, s) && HoldsRounds(d, s) && HoldsLatest(d, s)
  }

  /** An id determines its event. */
  ghost predicate IdsUnique(s: set<Event>) {
    forall a, b :: a in s && b in s && a.id == b.id ==> a == b
  }

  /** With equivocation the lookup by creator and round leads to some event of that creator and round. */
  ghost predicate LeadsSomewhere(d: Dag, s: set<Event>) {
    && (forall e :: e in s ==> (e.creator, e.round) in d.byCreatorRound)
    && (forall k :: k in d.byCreatorRound ==>
          var id := d.byCreatorRound[k];
          id in d.events && d.events[id].creator == k.0 && d.events[id].round == k.1)
  }

  /** What a store keeps of any events whose ids are unique, equivocation or not. */
  ghost predicate Keeps(d: Dag, s: set<Event>) {
    HoldsEvents(d, s) && LeadsSomewhere(d, s) && HoldsByRound(d, s) && HoldsRounds(d, s)
  }

  /** `e` clashes with the id of no event of `s`. */
  ghost predicate FreshId(s: set<Event>, e: Event) {
    forall x :: x in s && x.id == e.id ==> x == e
  }

  /** `e` clashes with no event of `s`. */
  ghost predicate Fresh(s: set<Event>, e: Event) {
    && FreshId(s, e)
    && (forall x :: x in s && x.creator == e.creator && x.round == e.round ==> x == e)
  }

  /** Without equivocation as a hypothesis: all but the choice among one creator's events is determined. */
  lemma InsertKeeps(d: Dag, s: set<Event>, e: Event)
    requires Keeps(d, s) && IdsUnique(s + {e})
    ensures Keeps(Inserted(d, e), s + {e})
  {
    hide HoldsByRound, HoldsRounds, HoldsEvents, LeadsSomewhere, Inserted, IdsUnique, FreshId;
    NewIdIsFresh(s, e);
    InsertKeepsEvents(d, s, e);
    InsertLeads(d, s, e);
    InsertKeepsByRound(d, s, e);
    InsertKeepsRounds(d, s, e);
  }

  lemma InsertLeads(d: Dag, s: set<Event>, e: Event)
    requires HoldsEvents(d, s) && LeadsSomewhere(d, s) && FreshId(s, e)
    ensures LeadsSomewhere(Inserted(d, e), s + {e})
  {
    var d2 := Inserted(d, e);
    forall k | k in d2.byCreatorRound ensures
      var id := d2.byCreatorRound[k]; id in d2.events && d2.events[id].creator == k.0 && d2.events[id].round == k.1
    {
      if k != (e.creator, e.round) {
        assert d.events[d.byCreatorRound[k]] in s;
      }
    }
  }

  lemma NewIsFresh(s: set<Event>, e: Event)
    requires NoEquivocation(s + {e})
    ensures Fresh(s, e)
  {
    assert e in s + {e};
  }

  lemma NewIdIsFresh(s: set<Event>, e: Event)
    requires IdsUnique(s + {e})
    ensures FreshId(s, e)
  {
    assert e in s + {e};
  }

  lemma InsertHolds(d: Dag, s: set<Event>, e: Event)
    requires Holds(d, s) && NoEquivocation(s + {e})
    ensures Holds(Inserted(d, e), s + {e})
  {
    hide HoldsByCreator, HoldsByRound, HoldsRounds, HoldsLatest, HoldsEvents, Inserted, NoEquivocation, FreshId;
    NewIsFresh(s, e);
    InsertKeepsEvents(d, s, e);
    InsertKeepsCreators(d, s, e);
    InsertKeepsByRound(d, s, e);
    InsertKeepsRounds(d, s, e);
    InsertKeepsLatest(d, s, e);
  }

  lemma InsertKeepsEvents(d: Dag, s: set<Event>, e: Event)
    requires HoldsEvents(d, s) && FreshId(s, e)
    ensures HoldsEvents(Inserted(d, e), s + {e})
  {
  }

  lemma InsertKeepsCreators(d: Dag, s: set<Event>, e: Event)
    requires HoldsEvents(d, s) && HoldsByCreator(d, s) && Fresh(s, e)
    ensures HoldsByCreator(Inserted(d, e), s + {e})
  {
    var d2 := Inserted(d, e);
    forall k | k in d2.byCreatorRound ensures
      var id := d2.byCreatorRound[k]; id in d2.events && d2.events[id].creator == k.0 && d2.events[id].round == k.1
    {
      if k != (e.creator, e.round) {
        assert d.events[d.byCreatorRound[k]] in s;
      }
    }
  }

  lemma InsertKeepsByRound(d: Dag, s: set<Event>, e: Event)
    requires HoldsEvents(d, s) && HoldsByRound(d, s) && FreshId(s, e)
    ensures HoldsByRound(Inserted(d, e), s + {e})
  {
    var d2 := Inserted(d, e);
    forall x | x in s + {e} ensures x.id in IdsAt(d2, x.round) {
      if x in s {
        assert x.id in IdsAt(d, x.round);
      } else {
        assert d2.byRound[e.round][|IdsAt(d, e.round)|] == e.id;
      }
    }
    forall r: U64, id | id in IdsAt(d2, r) ensures id in d2.events && d2.events[id].round == r {
      if id in IdsAt(d, r) {
        assert d.events[id] in s;
      } else {
        assert id == e.id && r == e.round;
      }
    }
  }

  lemma InsertKeepsRounds(d: Dag, s: set<Event>, e: Event)
    requires HoldsRounds(d, s)
    ensures HoldsRounds(Inserted(d, e), s + {e})
  {
    if d.maxRound <= e.round {
      assert e in s + {e};
    } else {
      var x :| x in s && x.round == d.maxRound;
      assert x in s + {e};
    }
  }

  lemma InsertKeepsLatest(d: Dag, s: set<Event>, e: Event)
    requires HoldsEvents(d, s) && HoldsLatest(d, s) && FreshId(s, e)
    ensures HoldsLatest(Inserted(d, e), s + {e})
  {
    hide Inserted, HoldsEvents, FreshId, LatestOf;
    forall c | c in Inserted(d, e).latest ensures LatestOf(Inserted(d, e), s + {e}, c) {
      InsertKeepsLatestOf(d, s, e, c);
    }
    LatestCovers(d, s, e);
  }

  lemma LatestCovers(d: Dag, s: set<Event>, e: Event)
    requires HoldsLatest(d, s)
    ensures forall x :: x in s + {e} ==> x.creator in Inserted(d, e).latest
  {
    hide LatestOf;
  }

  lemma InsertKeepsLatestOf(d: Dag, s: set<Event>, e: Event, c: ValidatorId)
    requires HoldsEvents(d, s) && HoldsLatest(d, s) && FreshId(s, e) && c in Inserted(d, e).latest
    ensures LatestOf(Inserted(d, e), s + {e}, c)
  {
    var d2 := Inserted(d, e);
    if c in d.latest {
      assert LatestOf(d, s, c) && d.events[d.latest[c]] in s;
      assert d2.events[d.latest[c]] == d.events[d.latest[c]];
    }
  }

  /** The stored events of the listed ids, in the order of the list and as often as listed. */
  function Listed(events: map<EventId, Event>, ids: seq<EventId>): seq<Event> {
    if ids == [] then [] else
      var before, last := Listed(events, ids[..|ids| - 1]), ids[|ids| - 1];
      if last in events then before + [events[last]] else before
  }

  lemma {:induction false} ListedMembers(events: map<EventId, Event>, ids: seq<EventId>, e: Event)
    ensures e in Listed(events, ids) <==> exists id :: id in ids && id in events && events[id] == e
  {
    if ids != [] {
      ListedMembers(events, ids[..|ids| - 1], e);
      assert ids == ids[..|ids| - 1] + [ids[|ids| - 1]];
    }
  }

  /** The stored events of a round, as `events_at_round` lists them. */
  ghost function RoundEvents(d: Dag, round: U64): set<Event> {
    set id | id in IdsAt(d, round) && id in d.events :: d.events[id]
  }

  lemma RoundEventsHeld(d: Dag, s: set<Event>, round: U64)
    requires Keeps(d, s)
    ensures RoundEvents(d, round) == set e | e in s && e.round == round
  {
    forall e | e in s && e.round == round ensures e in RoundEvents(d, round) {
      assert e.id in IdsAt(d, round) && d.events[e.id] == e;
    }
  }

  /** The anchor lookup finds an event of that creator and round, and none only if there is none. */
  lemma EventAtHeld(d: Dag, s: set<Event>, creator: ValidatorId, round: U64)
    requires Keeps(d, s)
    ensures match EventAt(d, creator, round)
            case Some(e) => e in s && e.creator == creator && e.round == round
            case None => forall e :: e in s ==> !(e.creator == creator && e.round == round)
  {
    hide HoldsByRound, HoldsRounds;
  }

  // ---------------------------------------------------------------- reachability

  /** Each id but the last is stored and lists the next among its strong parents. */
  ghost predicate IsPath(events: map<EventId, Event>, p: seq<EventId>) {
    forall i :: 0 <= i < |p| - 1 ==> p[i] in events && p[i + 1] in events[p[i]].strongParents
  }

  ghost predicate PathBetween(events: map<EventId, Event>, p: seq<EventId>, from: EventId, to: EventId) {
    p != [] && p[0] == from && p[|p| - 1] == to && IsPath(events, p)
  }

  ghost predicate Reaches(events: map<EventId, Event>, from: EventId, to: EventId) {
    exists p :: PathBetween(events, p, from, to)
  }

  lemma ReachesSelf(events: map<EventId, Event>, id: EventId)
    ensures Reaches(events, id, id)
  {
    assert PathBetween(events, [id], id, id);
  }

  lemma ReachesStep(events: map<EventId, Event>, from: EventId, mid: EventId, to: EventId)
    requires Reaches(events, from, mid) && mid in events && to in events[mid].strongParents
    ensures Reaches(events, from, to)
  {
    var p :| PathBetween(events, p, from, mid);
    assert PathBetween(events, p + [to], from, to);
  }

  /** More events keep every path. */
  lemma ReachesMonotone(a: map<EventId, Event>, b: map<EventId, Event>, from: EventId, to: EventId)
    requires forall id :: id in a ==> id in b && b[id] == a[id]
    requires Reaches(a, from, to)
    ensures Reaches(b, from, to)
  {
    var p :| PathBetween(a, p, from, to);
    assert PathBetween(b, p, from, to);
  }

  /** A set closed under stored strong parents contains every path that starts in it. */
  lemma {:induction false} ClosedContains(events: map<EventId, Event>, closed: set<EventId>, p: seq<EventId>, i: nat)
    requires forall v, w :: v in closed && v in events && w in events[v].strongParents ==> w in closed
    requires IsPath(events, p) && i < |p| && p[0] in closed
    ensures p[i] in closed
  {
    if i > 0 {
      ClosedContains(events, closed, p, i - 1);
      assert p[i - 1 + 1] in events[p[i - 1]].strongParents;
    }
  }

  // ---------------------------------------------------------------- what a store remembers of the order

  /** The store after the events arrived one by one. */
  function Built(arrivals: seq<Event>): Dag {
    if arrivals == [] then EMPTY_DAG else Inserted(Built(arrivals[..|arrivals| - 1]), arrivals[|arrivals| - 1])
  }

  /** The ids that arrived for a round, in the order of arrival. */
  function ArrivedAt(arrivals: seq<Event>, round: U64): seq<EventId> {
    if arrivals == [] then [] else
      ArrivedAt(arrivals[..|arrivals| - 1], round) +
      (if arrivals[|arrivals| - 1].round == round then [arrivals[|arrivals| - 1].id] else [])
  }

  /** A round lists its arrivals in order, an event that came twice twice. */
  lemma {:induction false} RoundListsArrivals(arrivals: seq<Event>, round: U64)
    ensures IdsAt(Built(arrivals), round) == ArrivedAt(arrivals, round)
  {
    if arrivals != [] {
      RoundListsArrivals(arrivals[..|arrivals| - 1], round);
    }
  }

  predicate Clash(a: Event, b: Event) {
    a.id == b.id || (a.creator == b.creator && a.round == b.round)
  }

  /** Of several events of one creator and round the one that came last is found. */
  lemma {:induction false} LastArrivalFound(arrivals: seq<Event>, i: nat)
    requires i < |arrivals| && forall j :: i < j < |arrivals| ==> !Clash(arrivals[i], arrivals[j])
    ensures var d, e := Built(arrivals), arrivals[i];
            && (e.creator, e.round) in d.byCreatorRound && d.byCreatorRound[(e.creator, e.round)] == e.id
            && EventAt(d, e.creator, e.round) == Some(e)
  {
    hide LatestAfter;
    var n := |arrivals| - 1;
    if i < n {
      LastArrivalFound(arrivals[..n], i);
      assert !Clash(arrivals[i], arrivals[n]);
    }
  }

  class DagStore {
    var events: map<EventId, Event>
    var byCreatorRound: map<(ValidatorId, U64), EventId>
    var byRound: map<U64, seq<EventId>>
    var latest: map<ValidatorId, EventId>
    var maxRound: U64

    ghost function View(): Dag
      reads this
    {
      Dag(events, byCreatorRound, byRound, latest, maxRound)
    }

    constructor ()
      ensures View() == EMPTY_DAG && Holds(View(), {})
    {
      events, byCreatorRound, byRound, latest, maxRound := map[], map[], map[], map[], 0;
    }

    method Insert(e: Event)
      modifies this
      ensures View() == Inserted(old(View()), e)
      ensures forall s :: old(Holds(View(), s)) && NoEquivocation(s + {e}) ==> Holds(View(), s + {e})
    {
      maxRound := Max(maxRound, e.round);
      byCreatorRound := byCreatorRound[(e.creator, e.round) := e.id];
      byRound := byRound[e.round := (if e.round in byRound then byRound[e.round] else []) + [e.id]];
      if e.creator in latest {
        if latest[e.creator] in events {
          if e.round > events[latest[e.creator]].round {
            latest := latest[e.creator := e.id];
          }
        }
      } else {
        latest := latest[e.creator := e.id];
      }
      events := events[e.id := e];
      assert View() == Inserted(old(View()), e);
      hide Holds, Inserted;
      forall s | old(Holds(View(), s)) && NoEquivocation(s + {e}) ensures Holds(View(), s + {e}) {
        InsertHolds(old(View()), s, e);
      }
    }

    method EventsAtRound(round: U64) returns (r: seq<Event>)
      ensures r == Listed(events, IdsAt(View(), round))
      ensures forall e :: e in r <==> e in RoundEvents(View(), round)
    {
      r := [];
      var ids := if round in byRound then byRound[round] else [];
      for i := 0 to |ids|
        invariant r == Listed(events, ids[..i])
      {
        assert ids[..i + 1][..i] == ids[..i];
        if ids[i] in events {
          r := r + [events[ids[i]]];
        }
      }
      assert ids[..|ids|] == ids == IdsAt(View(), round);
      forall e ensures e in r <==> e in RoundEvents(View(), round) {
        ListedMembers(events, ids, e);
      }
    }

    /** Breadth-first search: true exactly when a strong-parent path exists. */
    method CanReach(from: EventId, to: EventId) returns (r: bool)
      ensures r <==> Reaches(events, from, to)
    {
      ReachesSelf(events, from);
      if from == to {
        return true;
      }
      var visited: set<EventId> := {};
      var queue := [from];
      while queue != []
        invariant forall q :: q in queue ==> Reaches(events, from, q)
        invariant from in visited || from in queue
        invariant to !in visited
        invariant forall v, w :: v in visited && v in events && w in events[v].strongParents ==>
                  w in visited || w in queue
        decreases events.Keys - visited, |queue|
      {
        var current := queue[0];
        queue := queue[1..];
        if current == to {
          return true;
        }
        if current !in visited {
          visited := visited + {current};
          if current in events {
            queue := Enqueue(queue, events[current].strongParents, visited);
            forall w | w in events[current].strongParents ensures Reaches(events, from, w) {
              ReachesStep(events, from, current, w);
            }
          }
        }
      }
      if Reaches(events, from, to) {
        var p :| PathBetween(events, p, from, to);
        ClosedContains(events, visited, p, |p| - 1);
      }
      return false;
    }
  }

  /** Pushes the parents not yet visited. */
  method Enqueue(queue: seq<EventId>, parents: seq<EventId>, visited: set<EventId>) returns (q: seq<EventId>)
    ensures forall x :: x in q <==> x in queue || (x in parents && x !in visited)
  {
    q := queue;
    for i := 0 to |parents|
      invariant forall x :: x in q <==> x in queue || (x in parents[..i] && x !in visited)
    {
      if parents[i] !in visited {
        q := q + [parents[i]];
      }
    }
  }
}
