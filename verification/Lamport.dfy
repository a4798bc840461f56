/** The Lamport clock: one atomic counter, any number of threads, any interleaving of their atomic steps. */
module Lamport {
  import opened Common

  datatype Op = Tick | Witness(received: U64)

  /** What an operation alone makes of the clock; it returns the new value. */
  function After(op: Op, value: U64): U64 {
    match op
    case Tick => Wrap(value as int + 1)
    case Witness(received) => Wrap(Max(value, received) as int + 1)
  }

  predicate Overflows(op: Op, value: U64) {
    (if op.Tick? then value else Max(value, op.received)) as int + 1 == U64_LIMIT
  }

  /** Short of overflow an operation passes the clock and what it witnesses; in overflow it returns zero. */
  lemma AfterExceeds(op: Op, value: U64)
    ensures !Overflows(op, value) <==> After(op, value) > value
    ensures op.Witness? ==> (!Overflows(op, value) <==> After(op, value) > op.received)
  {
    var top: int := if op.Tick? then value else Max(value, op.received);
    if top + 1 == U64_LIMIT {
      assert Wrap(top + 1) == 0;
    } else {
      WrapSmall(top + 1);
    }
  }

  /** It skips nothing: no smaller timestamp would pass both. */
  lemma AfterLeast(op: Op, value: U64, t: U64)
    requires t > value && (op.Witness? ==> t > op.received)
    ensures !Overflows(op, value) && After(op, value) <= t
  {
    var top: int := if op.Tick? then value else Max(value, op.received);
    WrapSmall(top + 1);
  }

  // ---------------------------------------------------------------- the steps

  /** Inside a call: about to touch the counter, or holding a loaded value and the number of operations done by then. */
  datatype Pc = Calling(op: Op) | Loaded(received: U64, current: U64, at: nat)

  datatype Entry = Entry(thread: nat, op: Op, result: U64)

  /** The counter, the threads inside a call, the operations completed so far, and each thread's failed exchanges. */
  datatype State = State(value: U64, pcs: map<nat, Pc>, log: seq<Entry>, failures: map<nat, nat>)

  datatype Step = Call(thread: nat, op: Op) | FetchAdd(thread: nat) | Load(thread: nat) | CompareExchange(thread: nat)

  function Failures(s: State, t: nat): nat {
    if t in s.failures then s.failures[t] else 0
  }

  function Completed(s: State, t: nat, op: Op, value: U64): State {
    s.(value := value, pcs := s.pcs - {t}, log := s.log + [Entry(t, op, value)])
  }

  /** One atomic step; a thread that cannot take the step does nothing. */
  function Take(s: State, step: Step): State {
    var t := step.thread;
    match step
    case Call(_, op) =>
      if t in s.pcs then s else s.(pcs := s.pcs[t := Calling(op)])
    case FetchAdd(_) =>
      if t in s.pcs && s.pcs[t] == Calling(Tick) then Completed(s, t, Tick, Wrap(s.value as int + 1)) else s
    case Load(_) =>
      if t in s.pcs && s.pcs[t].Calling? && s.pcs[t].op.Witness? then
        s.(pcs := s.pcs[t := Loaded(s.pcs[t].op.received, s.value, |s.log|)])
      else s
    case CompareExchange(_) =>
      if t in s.pcs && s.pcs[t].Loaded? then
        var pc := s.pcs[t];
        if s.value == pc.current then
          Completed(s, t, Witness(pc.received), Wrap(Max(pc.current, pc.received) as int + 1))
        else
          s.(pcs := s.pcs[t := Calling(Witness(pc.received))], failures := s.failures[t := Failures(s, t) + 1])
      else s
  }

  function Run(initial: U64, steps: seq<Step>): State {
    if steps == [] then State(initial, map[], [], map[]) else
      Take(Run(initial, steps[..|steps| - 1]), steps[|steps| - 1])
  }

  // -------------------------------------------------------- every interleaving is a sequence of whole operations

  /** The clock after the first `n` completed operations. */
  function ValueAt(initial: U64, log: seq<Entry>, n: nat): U64
    requires n <= |log|
  {
    if n == 0 then initial else log[n - 1].result
  }

  /** Each completed operation returned what it returns when run alone, one after the other, in completion order. */
  ghost predicate Sequential(initial: U64, log: seq<Entry>) {
    forall i :: 0 <= i < |log| ==> log[i].result == After(log[i].op, ValueAt(initial, log, i))
  }

  ghost predicate PcOk(initial: U64, s: State, t: nat)
    requires t in s.pcs
  {
    s.pcs[t].Loaded? ==> s.pcs[t].at <= |s.log| && s.pcs[t].current == ValueAt(initial, s.log, s.pcs[t].at)
  }

  ghost predicate Invariant(initial: U64, s: State) {
    && Sequential(initial, s.log)
    && s.value == ValueAt(initial, s.log, |s.log|)
    && (forall t :: t in s.pcs ==> PcOk(initial, s, t))
  }

  lemma StepKeeps(initial: U64, s: State, step: Step)
    requires Invariant(initial, s)
    ensures Invariant(initial, Take(s, step))
  {
    hide Wrap, After;
    var s2 := Take(s, step);
    if |s2.log| > |s.log| {
      var n := |s.log|;
      assert s2.log == s.log + [s2.log[n]] && s2.value == s2.log[n].result;
      assert s2.log[n].result == After(s2.log[n].op, s.value) by {
        if step.FetchAdd? {
          AfterTick(s.value);
        } else {
          AfterWitness(s.pcs[step.thread].received, s.value);
        }
      }
      LogGrows(initial, s.log, s2.log[n]);
    }
  }

  lemma LogGrows(initial: U64, log: seq<Entry>, e: Entry)
    ensures forall i :: 0 <= i <= |log| ==> ValueAt(initial, log + [e], i) == ValueAt(initial, log, i)
  {
  }

  lemma AfterTick(value: U64)
    ensures After(Tick, value) == Wrap(value as int + 1)
  {
  }

  lemma AfterWitness(received: U64, value: U64)
    ensures After(Witness(received), value) == Wrap(Max(value, received) as int + 1)
  {
  }

  /** Whatever the interleaving, the operations take effect one at a time in completion order. */
  lemma {:induction false} Linearizes(initial: U64, steps: seq<Step>)
    ensures Invariant(initial, Run(initial, steps))
  {
    hide Take, Invariant;
    if steps == [] {
      InvariantAtStart(initial);
    } else {
      var rest := steps[..|steps| - 1];
      Linearizes(initial, rest);
      StepKeeps(initial, Run(initial, rest), steps[|steps| - 1]);
    }
  }

  lemma InvariantAtStart(initial: U64)
    ensures Invariant(initial, Run(initial, []))
  {
  }

  // ---------------------------------------------------------------- timestamps

  /** No completed operation met a counter or a timestamp at the top of the range. */
  ghost predicate NoOverflow(initial: U64, log: seq<Entry>) {
    forall i :: 0 <= i < |log| ==> !Overflows(log[i].op, ValueAt(initial, log, i))
  }

  /** The clock only ever moves forward. */
  ghost predicate Advances(initial: U64, log: seq<Entry>) {
    forall i, j :: 0 <= i < j <= |log| ==> ValueAt(initial, log, i) < ValueAt(initial, log, j)
  }

  ghost predicate StepUp(initial: U64, log: seq<Entry>, k: nat)
    requires k < |log|
  {
    ValueAt(initial, log, k) < ValueAt(initial, log, k + 1)
  }

  lemma {:induction false} StepsAdd(initial: U64, log: seq<Entry>, i: nat, j: nat)
    requires i < j <= |log| && forall k :: 0 <= k < |log| ==> StepUp(initial, log, k)
    ensures ValueAt(initial, log, i) < ValueAt(initial, log, j)
    decreases j
  {
    assert StepUp(initial, log, j - 1);
    if i < j - 1 {
      StepsAdd(initial, log, i, j - 1);
    }
  }

  lemma AdvancesByStep(initial: U64, log: seq<Entry>)
    ensures Advances(initial, log) <==> forall k :: 0 <= k < |log| ==> StepUp(initial, log, k)
  {
    if forall k :: 0 <= k < |log| ==> StepUp(initial, log, k) {
      forall i, j | 0 <= i < j <= |log| ensures ValueAt(initial, log, i) < ValueAt(initial, log, j) {
        StepsAdd(initial, log, i, j);
      }
    }
  }

  /** Returned timestamps increase in completion order, from the initial value on, exactly when nothing overflows. */
  lemma TimestampsIncrease(initial: U64, steps: seq<Step>)
    ensures var log := Run(initial, steps).log;
            Advances(initial, log) <==> NoOverflow(initial, log)
  {
    Linearizes(initial, steps);
    hide Run, After, Overflows, Advances;
    var log := Run(initial, steps).log;
    AdvancesByStep(initial, log);
    forall k | 0 <= k < |log| ensures StepUp(initial, log, k) <==> !Overflows(log[k].op, ValueAt(initial, log, k)) {
      AfterExceeds(log[k].op, ValueAt(initial, log, k));
    }
  }

  /** No two completed operations, of one thread or of several, return the same timestamp. */
  lemma TimestampsDistinct(initial: U64, steps: seq<Step>, i: nat, j: nat)
    requires i < |Run(initial, steps).log| && j < |Run(initial, steps).log| && i != j
    requires NoOverflow(initial, Run(initial, steps).log)
    ensures Run(initial, steps).log[i].result != Run(initial, steps).log[j].result
  {
    TimestampsIncrease(initial, steps);
    hide Run, NoOverflow;
    var log := Run(initial, steps).log;
    assert ValueAt(initial, log, i + 1) == log[i].result && ValueAt(initial, log, j + 1) == log[j].result;
    if i < j {
      assert ValueAt(initial, log, i + 1) < ValueAt(initial, log, j + 1);
    } else {
      assert ValueAt(initial, log, j + 1) < ValueAt(initial, log, i + 1);
    }
  }

  /** A completed `witness` is past what it witnessed, and past every operation completed before it. */
  lemma WitnessExceeds(initial: U64, steps: seq<Step>, i: nat, j: nat)
    requires j < i < |Run(initial, steps).log| && Run(initial, steps).log[i].op.Witness?
    requires NoOverflow(initial, Run(initial, steps).log)
    ensures var log := Run(initial, steps).log;
            log[i].result > log[i].op.received && log[i].result > log[j].result
  {
    Linearizes(initial, steps);
    TimestampsIncrease(initial, steps);
    hide Run, After, Overflows;
    var log := Run(initial, steps).log;
    AfterExceeds(log[i].op, ValueAt(initial, log, i));
    assert ValueAt(initial, log, j + 1) < ValueAt(initial, log, i + 1);
  }

  /** A compare-exchange fails exactly when another operation completed since the load: no ABA. */
  lemma ExchangeFailsExactly(initial: U64, steps: seq<Step>, t: nat)
    requires var s := Run(initial, steps); t in s.pcs && s.pcs[t].Loaded? && NoOverflow(initial, s.log)
    ensures var s := Run(initial, steps);
            s.value != s.pcs[t].current <==> |s.log| > s.pcs[t].at
  {
    Linearizes(initial, steps);
    TimestampsIncrease(initial, steps);
    hide Run, NoOverflow, Sequential;
    var s := Run(initial, steps);
    assert PcOk(initial, s, t);
    if |s.log| > s.pcs[t].at {
      assert ValueAt(initial, s.log, s.pcs[t].at) < ValueAt(initial, s.log, |s.log|);
    }
  }

  // ---------------------------------------------------------------- a bound on the inputs alone

  /** The largest of the initial value and the timestamps passed to `witness`. */
  function Highest(initial: U64, steps: seq<Step>): U64 {
    if steps == [] then initial else
      var before, last := Highest(initial, steps[..|steps| - 1]), steps[|steps| - 1];
      if last.Call? && last.op.Witness? then Max(before, last.op.received) else before
  }

  predicate OpBelow(op: Op, top: U64) {
    op.Witness? ==> op.received <= top
  }

  ghost predicate AllBelow(s: State, top: U64) {
    && (forall i :: 0 <= i < |s.log| ==> OpBelow(s.log[i].op, top))
    && (forall t :: t in s.pcs ==> PcBelow(s.pcs[t], top))
  }

  predicate PcBelow(pc: Pc, top: U64) {
    match pc
    case Calling(op) => OpBelow(op, top)
    case Loaded(received, _, _) => received <= top
  }

  lemma StepBelow(s: State, step: Step, top: U64)
    requires AllBelow(s, top) && (step.Call? ==> OpBelow(step.op, top))
    ensures AllBelow(Take(s, step), top)
  {
    hide Wrap;
    if step.thread in s.pcs {
      assert PcBelow(s.pcs[step.thread], top);
    }
  }

  lemma {:induction false} RunBelow(initial: U64, steps: seq<Step>, top: U64)
    requires Highest(initial, steps) <= top
    ensures AllBelow(Run(initial, steps), top)
  {
    hide Take, AllBelow;
    if steps == [] {
      StartBelow(initial, top);
    } else {
      RunBelow(initial, steps[..|steps| - 1], top);
      StepBelow(Run(initial, steps[..|steps| - 1]), steps[|steps| - 1], top);
    }
  }

  lemma StartBelow(initial: U64, top: U64)
    ensures AllBelow(Run(initial, []), top)
  {
  }

  lemma {:induction false} HighestFromStart(initial: U64, steps: seq<Step>)
    ensures initial <= Highest(initial, steps)
  {
    if steps != [] {
      HighestFromStart(initial, steps[..|steps| - 1]);
    }
  }

  lemma {:induction false} ValueBounded(initial: U64, log: seq<Entry>, top: U64, n: nat)
    requires Sequential(initial, log) && initial <= top && n <= |log| && top as int + |log| < U64_LIMIT
    requires forall i :: 0 <= i < |log| ==> OpBelow(log[i].op, top)
    ensures ValueAt(initial, log, n) as int <= top as int + n
    ensures n < |log| ==> !Overflows(log[n].op, ValueAt(initial, log, n))
  {
    if n > 0 {
      ValueBounded(initial, log, top, n - 1);
      var op, value := log[n - 1].op, ValueAt(initial, log, n - 1);
      assert log[n - 1].result == After(op, value);
      WrapSmall((if op.Tick? then value else Max(value, op.received)) as int + 1);
    }
  }

  /** Nothing overflows as long as the highest input plus the number of completed operations stays below 2^64. */
  lemma InputsBoundOverflow(initial: U64, steps: seq<Step>)
    requires Highest(initial, steps) as int + |Run(initial, steps).log| < U64_LIMIT
    ensures NoOverflow(initial, Run(initial, steps).log)
  {
    Linearizes(initial, steps);
    RunBelow(initial, steps, Highest(initial, steps));
    HighestFromStart(initial, steps);
    hide Run, Overflows, Sequential, Highest;
    var log := Run(initial, steps).log;
    forall i | 0 <= i < |log| ensures !Overflows(log[i].op, ValueAt(initial, log, i)) {
      ValueBounded(initial, log, Highest(initial, steps), i);
    }
  }

  // ---------------------------------------------------------------- progress

  /** Failures are paid for: by operations completed before the pending load, or before now. */
  ghost predicate Paid(s: State) {
    forall t {:trigger Failures(s, t)} ::
      Failures(s, t) <= if t in s.pcs && s.pcs[t].Loaded? then s.pcs[t].at else |s.log|
  }

  lemma StepKeepsPaid(initial: U64, s: State, step: Step)
    requires Invariant(initial, s) && Paid(s)
    ensures Paid(Take(s, step))
  {
    hide Wrap, Sequential;
    var s2, t := Take(s, step), step.thread;
    if t in s.pcs {
      assert PcOk(initial, s, t);
    }
    forall u ensures Failures(s2, u) <= if u in s2.pcs && s2.pcs[u].Loaded? then s2.pcs[u].at else |s2.log| {
      assert Failures(s, u) <= if u in s.pcs && s.pcs[u].Loaded? then s.pcs[u].at else |s.log|;
      if u in s.pcs {
        assert PcOk(initial, s, u);
      }
    }
  }

  /** No thread's exchange fails more often than operations complete. */
  lemma {:induction false} FailuresBounded(initial: U64, steps: seq<Step>, t: nat)
    ensures Failures(Run(initial, steps), t) <= |Run(initial, steps).log|
  {
    PaidAlways(initial, steps);
    Linearizes(initial, steps);
    hide Run, Sequential;
    var s := Run(initial, steps);
    if t in s.pcs {
      assert PcOk(initial, s, t);
    }
    assert Failures(s, t) <= if t in s.pcs && s.pcs[t].Loaded? then s.pcs[t].at else |s.log|;
  }

  lemma {:induction false} PaidAlways(initial: U64, steps: seq<Step>)
    ensures Paid(Run(initial, steps))
  {
    hide Take, Invariant;
    if steps != [] {
      var rest := steps[..|steps| - 1];
      PaidAlways(initial, rest);
      Linearizes(initial, rest);
      hide Paid;
      StepKeepsPaid(initial, Run(initial, rest), steps[|steps| - 1]);
    }
  }

  // ---------------------------------------------------------------- the clock object

  /** Calls that nobody interrupts. */
  class LamportClock {
    var value: U64

    constructor (initial: U64)
      ensures value == initial
    {
      value := initial;
    }

    method CallTick() returns (time: U64)
      modifies this
      ensures time == value == After(Tick, old(value))
    {
      var before := value;
      value := Wrap(value as int + 1);
      time := Wrap(before as int + 1);
    }

    method CompareExchange(expected: U64, desired: U64) returns (ok: bool)
      modifies this
      ensures ok <==> old(value) == expected
      ensures value == if ok then desired else old(value)
    {
      ok := value == expected;
      if ok {
        value := desired;
      }
    }

    /** The retry loop. */
    method CallWitness(received: U64) returns (time: U64)
      modifies this
      ensures time == value == After(Witness(received), old(value))
    {
      var done := false;
      time := 0;
      while !done
        invariant if done then time == value == After(Witness(received), old(value)) else value == old(value)
        decreases !done
      {
        var current := value;
        time := Wrap(Max(current, received) as int + 1);
        done := CompareExchange(current, time);
      }
    }

    /** `witness_many`: the largest timestamp, or zero when there is none. */
    method WitnessMany(timestamps: seq<U64>) returns (time: U64, ghost top: U64)
      modifies this
      ensures timestamps == [] ==> top == 0
      ensures timestamps != [] ==> top in timestamps && forall i :: 0 <= i < |timestamps| ==> timestamps[i] <= top
      ensures time == value == After(Witness(top), old(value))
    {
      var most: U64 := 0;
      for i := 0 to |timestamps|
        invariant value == old(value)
        invariant i == 0 ==> most == 0
        invariant i > 0 ==> most in timestamps[..i] && forall j :: 0 <= j < i ==> timestamps[j] <= most
      {
        most := if i == 0 then timestamps[0] else Max(most, timestamps[i]);
      }
      top := most;
      time := CallWitness(most);
    }
  }
}
