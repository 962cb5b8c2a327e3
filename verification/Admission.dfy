/** Concurrent callers of the executor: one buffered-channel slot per admitted call, counters bumped by
    separate atomic steps, deferred calls unwound last-in first-out, and readers that take a metrics
    snapshot while the callers run. */
module Admission {
  import Stats

  /** Where a caller stands. `Holding` has its slot; `Counted` has bumped the total; `Working` has bumped
      the in-flight counter; `Observed` has recorded its duration; `Uncounted` has taken itself off the
      in-flight counter and has its slot still to release. `Refusing` took the default branch. */
  datatype Pc = Arrived | Holding | Counted | Working | Observed | Uncounted | Returned | Refusing | Refused

  /** A snapshot in the making, with the values read so far. */
  datatype Reader =
    | Copied(window: seq<int>)
    | ReadTotal(window: seq<int>, total: int)
    | ReadRejected(window: seq<int>, total: int, rejected: int)
    | Reported(window: seq<int>, total: int, rejected: int, inFlight: int)

  datatype State = State(
    callers: map<nat, Pc>, readers: map<nat, Reader>, sem: nat,
    total: int, rejected: int, inFlight: int, ring: Stats.Ring, history: seq<int>)

  datatype Step =
    | Arrive(c: nat) | Acquire(c: nat) | Decline(c: nat) | CountRejected(c: nat)
    | CountTotal(c: nat) | CountInFlight(c: nat) | Observe(c: nat, d: int) | Uncount(c: nat) | Release(c: nat)
    | Copy(r: nat) | LoadTotal(r: nat) | LoadRejected(r: nat) | LoadInFlight(r: nat)

  const INIT := State(map[], map[], 0, 0, 0, 0, Stats.EmptyRing(), [])

  predicate At(s: State, c: nat, pc: Pc) {
    c in s.callers && s.callers[c] == pc
  }

  /** A send to the channel succeeds when a slot is free; the default branch is taken when none is; the
      deferred receive waits for an element. */
  predicate Enabled(s: State, step: Step, capacity: nat) {
    match step
    case Arrive(c) => c !in s.callers
    case Acquire(c) => At(s, c, Arrived) && s.sem < capacity
    case Decline(c) => At(s, c, Arrived) && s.sem >= capacity
    case CountRejected(c) => At(s, c, Refusing)
    case CountTotal(c) => At(s, c, Holding)
    case CountInFlight(c) => At(s, c, Counted)
    case Observe(c, _) => At(s, c, Working)
    case Uncount(c) => At(s, c, Observed)
    case Release(c) => At(s, c, Uncounted) && s.sem > 0
    case Copy(r) => r !in s.readers
    case LoadTotal(r) => r in s.readers && s.readers[r].Copied?
    case LoadRejected(r) => r in s.readers && s.readers[r].ReadTotal?
    case LoadInFlight(r) => r in s.readers && s.readers[r].ReadRejected?
  }

  /** One caller moves on and bumps counters by the given amounts. */
  function Move(s: State, c: nat, pc: Pc, dSem: int, dTotal: int, dRejected: int, dInFlight: int): State
    requires s.sem + dSem >= 0
  {
    State(s.callers[c := pc], s.readers, s.sem + dSem, s.total + dTotal, s.rejected + dRejected,
          s.inFlight + dInFlight, s.ring, s.history)
  }

  function Measure(s: State, c: nat, d: int): State
    requires Stats.WellShaped(s.ring)
  {
    State(s.callers[c := Observed], s.readers, s.sem, s.total, s.rejected, s.inFlight,
          Stats.Push(s.ring, d), s.history + [d])
  }

  function SetReader(s: State, r: nat, reader: Reader): State {
    State(s.callers, s.readers[r := reader], s.sem, s.total, s.rejected, s.inFlight, s.ring, s.history)
  }

  function Apply(s: State, step: Step, capacity: nat): State
    requires Enabled(s, step, capacity) && Stats.WellShaped(s.ring)
  {
    match step
    case Arrive(c) => Move(s, c, Arrived, 0, 0, 0, 0)
    case Acquire(c) => Move(s, c, Holding, 1, 0, 0, 0)
    case Decline(c) => Move(s, c, Refusing, 0, 0, 0, 0)
    case CountRejected(c) => Move(s, c, Refused, 0, 0, 1, 0)
    case CountTotal(c) => Move(s, c, Counted, 0, 1, 0, 0)
    case CountInFlight(c) => Move(s, c, Working, 0, 0, 0, 1)
    case Observe(c, d) => Measure(s, c, d)
    case Uncount(c) => Move(s, c, Uncounted, 0, 0, 0, -1)
    case Release(c) => Move(s, c, Returned, -1, 0, 0, 0)
    case Copy(r) => SetReader(s, r, Copied(Stats.Window(s.ring)))
    case LoadTotal(r) => SetReader(s, r, ReadTotal(s.readers[r].window, s.total))
    case LoadRejected(r) => SetReader(s, r, ReadRejected(s.readers[r].window, s.readers[r].total, s.rejected))
    case LoadInFlight(r) =>
      SetReader(s, r, Reported(s.readers[r].window, s.readers[r].total, s.readers[r].rejected, s.inFlight))
  }

  /** `steps` can be taken one after the other from `s` and lead to `t`. */
  ghost predicate Leads(s: State, steps: seq<Step>, t: State, capacity: nat)
    decreases |steps|
  {
    if steps == [] then s == t
    else
      && Stats.WellShaped(s.ring) && Enabled(s, steps[0], capacity)
      && Leads(Apply(s, steps[0], capacity), steps[1..], t, capacity)
  }

  ghost predicate Reachable(s: State, capacity: nat) {
    exists steps :: Leads(INIT, steps, s, capacity)
  }

  // ----- Counting callers -----

  /** The groups of callers that the counters stand for. */
  datatype Group = Holders | InFlight | Admitted | Measured | TurnedAway

  predicate Belongs(pc: Pc, g: Group) {
    match g
    case Holders => pc.Holding? || pc.Counted? || pc.Working? || pc.Observed? || pc.Uncounted?
    case InFlight => pc.Working? || pc.Observed?
    case Admitted => pc.Counted? || pc.Working? || pc.Observed? || pc.Uncounted? || pc.Returned?
    case Measured => pc.Observed? || pc.Uncounted? || pc.Returned?
    case TurnedAway => pc.Refused?
  }

  function Members(callers: map<nat, Pc>, g: Group): set<nat> {
    set c | c in callers && Belongs(callers[c], g)
  }

  function Bit(b: bool): nat {
    if b then 1 else 0
  }

  lemma SizeWithout(group: set<nat>, c: nat)
    ensures |group| == |group - {c}| + Bit(c in group)
  {
    if c in group {
      assert group == (group - {c}) + {c};
    } else {
      assert group == group - {c};
    }
  }

  /** Moving one caller changes the size of a group by that caller alone. */
  lemma MoveCounts(callers: map<nat, Pc>, c: nat, pc: Pc, g: Group)
    ensures |Members(callers[c := pc], g)| + Bit(c in callers && Belongs(callers[c], g))
            == |Members(callers, g)| + Bit(Belongs(pc, g))
  {
    var before, after := Members(callers, g), Members(callers[c := pc], g);
    SizeWithout(before, c);
    SizeWithout(after, c);
    OthersStay(callers, c, pc, g);
  }

  lemma OthersStay(callers: map<nat, Pc>, c: nat, pc: Pc, g: Group)
    ensures Members(callers[c := pc], g) - {c} == Members(callers, g) - {c}
    ensures c in Members(callers[c := pc], g) <==> Belongs(pc, g)
  {
  }

  lemma SubgroupSize(callers: map<nat, Pc>, g: Group, h: Group)
    requires forall pc :: Belongs(pc, g) ==> Belongs(pc, h)
    ensures |Members(callers, g)| <= |Members(callers, h)|
  {
    SubsetSize(Members(callers, g), Members(callers, h));
  }

  lemma {:induction false} SubsetSize(a: set<nat>, b: set<nat>)
    requires a <= b
    ensures |a| <= |b|
    decreases |a|
  {
    if a != {} {
      var x :| x in a;
      SubsetSize(a - {x}, b - {x});
    }
  }

  // ----- The invariant -----

  /** The counters count the callers, the channel holds one element per holder, and the ring is in step
      with the durations recorded. */
  ghost predicate CountersMatch(s: State, capacity: nat) {
    && s.sem == |Members(s.callers, Holders)| <= capacity
    && s.inFlight == |Members(s.callers, InFlight)|
    && s.total == |Members(s.callers, Admitted)|
    && |s.history| == |Members(s.callers, Measured)|
    && s.rejected == |Members(s.callers, TurnedAway)|
    && Stats.Tracks(s.ring, s.history)
  }

  /** What a reader has seen so far is consistent with counters that only the callers move. */
  ghost predicate ReaderSound(s: State, r: Reader, capacity: nat) {
    && |r.window| <= Stats.RING_CAP
    && |r.window| <= s.total
    && (!r.Copied? ==> |r.window| <= r.total <= s.total)
    && (r.ReadRejected? || r.Reported? ==> 0 <= r.rejected <= s.rejected)
    && (r.Reported? ==> 0 <= r.inFlight <= capacity)
  }

  ghost predicate Inv(s: State, capacity: nat) {
    && CountersMatch(s, capacity)
    && forall r | r in s.readers :: ReaderSound(s, s.readers[r], capacity)
  }

  lemma GroupsNest(s: State, capacity: nat)
    requires CountersMatch(s, capacity)
    ensures 0 <= s.inFlight <= s.sem <= capacity
    ensures |s.history| <= s.total
    ensures 0 <= s.rejected
  {
    SubgroupSize(s.callers, InFlight, Holders);
    SubgroupSize(s.callers, Measured, Admitted);
  }

  lemma InitInv(capacity: nat)
    ensures Inv(INIT, capacity)
  {
    forall g ensures Members(INIT.callers, g) == {} {}
  }

  predicate ReadsOnly(step: Step) {
    step.Copy? || step.LoadTotal? || step.LoadRejected? || step.LoadInFlight?
  }

  lemma CallerStepKeepsCounters(s: State, step: Step, c: nat, capacity: nat)
    requires CountersMatch(s, capacity) && Enabled(s, step, capacity)
    requires !ReadsOnly(step) && step.c == c
    ensures CountersMatch(Apply(s, step, capacity), capacity)
  {
    var pc := Apply(s, step, capacity).callers[c];
    MoveCounts(s.callers, c, pc, Holders);
    MoveCounts(s.callers, c, pc, InFlight);
    MoveCounts(s.callers, c, pc, Admitted);
    MoveCounts(s.callers, c, pc, Measured);
    MoveCounts(s.callers, c, pc, TurnedAway);
    if step.Observe? {
      Stats.PushTracks(s.ring, s.history, step.d);
    }
  }

  lemma StepKeepsInv(s: State, step: Step, capacity: nat)
    requires Inv(s, capacity) && Enabled(s, step, capacity)
    ensures Inv(Apply(s, step, capacity), capacity)
  {
    var t := Apply(s, step, capacity);
    GroupsNest(s, capacity);
    if step.Copy? {
      Stats.WindowIsRecent(s.ring, s.history);
    } else if !ReadsOnly(step) {
      CallerStepKeepsCounters(s, step, step.c, capacity);
      assert t.total >= s.total && t.rejected >= s.rejected;
    }
  }

  lemma {:induction false} RunKeepsInv(s: State, steps: seq<Step>, t: State, capacity: nat)
    requires Inv(s, capacity) && Leads(s, steps, t, capacity)
    ensures Inv(t, capacity)
    decreases |steps|
  {
    if steps != [] {
      StepKeepsInv(s, steps[0], capacity);
      RunKeepsInv(Apply(s, steps[0], capacity), steps[1..], t, capacity);
    }
  }

  lemma ReachableInv(s: State, capacity: nat)
    requires Reachable(s, capacity)
    ensures Inv(s, capacity)
  {
    var steps :| Leads(INIT, steps, s, capacity);
    InitInv(capacity);
    RunKeepsInv(INIT, steps, s, capacity);
  }

  // ----- Safety of every run -----

  /** In every reachable state: one channel element per holder, in-flight callers hold slots, never more
      holders than slots, and each counter equals the number of callers that bumped it. */
  lemma AdmissionIsSafe(s: State, capacity: nat)
    requires Reachable(s, capacity)
    ensures s.sem == |Members(s.callers, Holders)|
    ensures 0 <= s.inFlight <= s.sem <= capacity
    ensures s.inFlight == |Members(s.callers, InFlight)|
    ensures s.total == |Members(s.callers, Admitted)|
    ensures s.rejected == |Members(s.callers, TurnedAway)|
    ensures |s.history| == |Members(s.callers, Measured)| <= s.total && Stats.Tracks(s.ring, s.history)
  {
    ReachableInv(s, capacity);
    GroupsNest(s, capacity);
  }

  /** A caller is turned away only while every slot is held by some caller. */
  lemma DeclinedOnlyWhenFull(s: State, c: nat, capacity: nat)
    requires Reachable(s, capacity) && Enabled(s, Decline(c), capacity)
    ensures |Members(s.callers, Holders)| == capacity && c !in Members(s.callers, Holders)
  {
    ReachableInv(s, capacity);
  }

  predicate Done(pc: Pc) {
    pc.Returned? || pc.Refused?
  }

  /** The step a caller takes next. */
  function NextStep(s: State, c: nat, d: int, capacity: nat): Step
    requires c in s.callers && !Done(s.callers[c])
  {
    match s.callers[c]
    case Arrived => if s.sem < capacity then Acquire(c) else Decline(c)
    case Holding => CountTotal(c)
    case Counted => CountInFlight(c)
    case Working => Observe(c, d)
    case Observed => Uncount(c)
    case Uncounted => Release(c)
    case _ => CountRejected(c)
  }

  /** No caller ever waits: whatever the others do, its next step is enabled. In particular the
      receive that releases a slot finds an element. */
  lemma NobodyBlocks(s: State, c: nat, d: int, capacity: nat)
    requires Reachable(s, capacity) && c in s.callers && !Done(s.callers[c])
    ensures Enabled(s, NextStep(s, c, d, capacity), capacity)
  {
    ReachableInv(s, capacity);
    InvUnblocks(s, c, d, capacity);
  }

  lemma InvUnblocks(s: State, c: nat, d: int, capacity: nat)
    requires Inv(s, capacity) && c in s.callers && !Done(s.callers[c])
    ensures Enabled(s, NextStep(s, c, d, capacity), capacity)
  {
    if s.callers[c] == Uncounted {
      assert c in Members(s.callers, Holders);
    }
  }

  // ----- Draining -----

  /** Steps a caller still has to take, at most. */
  function Remaining(pc: Pc): nat {
    match pc
    case Arrived => 6 case Holding => 5 case Counted => 4 case Working => 3 case Observed => 2
    case Uncounted => 1 case Returned => 0 case Refusing => 1 case Refused => 0
  }

  ghost predicate Quiescent(s: State) {
    forall c | c in s.callers :: Done(s.callers[c])
  }

  lemma LeadsFrom(s: State, step: Step, rest: seq<Step>, t: State, capacity: nat)
    requires Stats.WellShaped(s.ring) && Enabled(s, step, capacity) && Leads(Apply(s, step, capacity), rest, t, capacity)
    ensures Leads(s, [step] + rest, t, capacity)
  {
    assert ([step] + rest)[1..] == rest;
  }

  lemma {:induction false} LeadsConcat(s: State, first: seq<Step>, t: State, second: seq<Step>, u: State, capacity: nat)
    requires Leads(s, first, t, capacity) && Leads(t, second, u, capacity)
    ensures Leads(s, first + second, u, capacity)
    decreases |first|
  {
    if first == [] {
      assert first + second == second;
    } else {
      LeadsConcat(Apply(s, first[0], capacity), first[1..], t, second, u, capacity);
      assert (first + second)[1..] == first[1..] + second;
    }
  }

  /** A caller's next step brings that caller closer to the end and leaves the others alone. */
  lemma StepAdvances(s: State, c: nat, capacity: nat) returns (t: State)
    requires Inv(s, capacity) && c in s.callers && !Done(s.callers[c])
    ensures Enabled(s, NextStep(s, c, 0, capacity), capacity) && t == Apply(s, NextStep(s, c, 0, capacity), capacity)
    ensures Inv(t, capacity) && t.callers.Keys == s.callers.Keys
    ensures Remaining(t.callers[c]) < Remaining(s.callers[c])
    ensures forall x | x in s.callers && x != c :: t.callers[x] == s.callers[x]
  {
    InvUnblocks(s, c, 0, capacity);
    var step := NextStep(s, c, 0, capacity);
    StepKeepsInv(s, step, capacity);
    t := Apply(s, step, capacity);
  }

  lemma {:induction false} FinishCaller(s: State, c: nat, capacity: nat) returns (steps: seq<Step>, t: State)
    requires Inv(s, capacity) && c in s.callers
    ensures Leads(s, steps, t, capacity) && Inv(t, capacity)
    ensures t.callers.Keys == s.callers.Keys && Done(t.callers[c])
    ensures forall x | x in s.callers && x != c :: t.callers[x] == s.callers[x]
    decreases Remaining(s.callers[c])
  {
    if Done(s.callers[c]) {
      steps, t := [], s;
    } else {
      var u := StepAdvances(s, c, capacity);
      var rest;
      rest, t := FinishCaller(u, c, capacity);
      LeadsFrom(s, NextStep(s, c, 0, capacity), rest, t, capacity);
      steps := [NextStep(s, c, 0, capacity)] + rest;
    }
  }

  lemma {:induction false} FinishAll(s: State, todo: set<nat>, capacity: nat) returns (steps: seq<Step>, t: State)
    requires Inv(s, capacity) && todo <= s.callers.Keys
    requires forall c | c in s.callers && c !in todo :: Done(s.callers[c])
    ensures Leads(s, steps, t, capacity) && Quiescent(t) && t.callers.Keys == s.callers.Keys
    decreases |todo|
  {
    if todo == {} {
      steps, t := [], s;
    } else {
      var c :| c in todo;
      var first, u := FinishCaller(s, c, capacity);
      var rest;
      rest, t := FinishAll(u, todo - {c}, capacity);
      LeadsConcat(s, first, u, rest, t, capacity);
      steps := first + rest;
    }
  }

  lemma ReachableLeads(s: State, steps: seq<Step>, t: State, capacity: nat)
    requires Reachable(s, capacity) && Leads(s, steps, t, capacity)
    ensures Reachable(t, capacity)
  {
    var first :| Leads(INIT, first, s, capacity);
    LeadsConcat(INIT, first, s, steps, t, capacity);
  }

  /** Every reachable state can drain without new arrivals. */
  lemma CanAlwaysDrain(s: State, capacity: nat) returns (steps: seq<Step>, t: State)
    requires Reachable(s, capacity)
    ensures Leads(s, steps, t, capacity) && Reachable(t, capacity)
    ensures Quiescent(t) && t.callers.Keys == s.callers.Keys
  {
    ReachableInv(s, capacity);
    steps, t := FinishAll(s, s.callers.Keys, capacity);
    ReachableLeads(s, steps, t, capacity);
  }

  /** At rest nothing is leaked: the channel is empty, nothing is in flight, every call is either
      admitted or rejected, and every admitted call has been measured. */
  lemma QuiescenceLeaksNothing(s: State, capacity: nat)
    requires Reachable(s, capacity) && Quiescent(s)
    ensures s.sem == 0 && s.inFlight == 0
    ensures s.total + s.rejected == |s.callers.Keys|
    ensures |s.history| == s.total
  {
    ReachableInv(s, capacity);
    GroupsAtRest(s.callers);
  }

  lemma GroupsAtRest(callers: map<nat, Pc>)
    requires forall c | c in callers :: Done(callers[c])
    ensures Members(callers, Holders) == Members(callers, InFlight) == {}
    ensures Members(callers, Admitted) == Members(callers, Measured)
    ensures |Members(callers, Admitted)| + |Members(callers, TurnedAway)| == |callers.Keys|
  {
    var a, b := Members(callers, Admitted), Members(callers, TurnedAway);
    assert a + b == callers.Keys && a !! b;
  }

  // ----- How tight the bound is -----

  /** One more step from a reachable state. */
  lemma StepReaches(s: State, step: Step, capacity: nat) returns (t: State)
    requires Reachable(s, capacity) && Enabled(s, step, capacity)
    ensures Stats.WellShaped(s.ring) && t == Apply(s, step, capacity) && Reachable(t, capacity)
  {
    ReachableInv(s, capacity);
    t := Apply(s, step, capacity);
    assert Leads(t, [], t, capacity);
    LeadsFrom(s, step, [], t, capacity);
    ReachableLeads(s, [step] + [], t, capacity);
  }

  lemma TakeSlot(s: State, c: nat, capacity: nat) returns (t: State)
    requires Reachable(s, capacity) && c !in s.callers && s.sem < capacity
    ensures Reachable(t, capacity) && t == Move(s, c, Holding, 1, 0, 0, 0)
  {
    t := StepReaches(s, Arrive(c), capacity);
    t := StepReaches(t, Acquire(c), capacity);
    assert t.callers == s.callers[c := Holding];
  }

  lemma AdmitOne(s: State, c: nat, capacity: nat) returns (t: State)
    requires Reachable(s, capacity) && c !in s.callers && s.sem < capacity
    ensures Reachable(t, capacity) && t == Move(s, c, Working, 1, 1, 0, 1)
  {
    t := TakeSlot(s, c, capacity);
    t := StepReaches(t, CountTotal(c), capacity);
    t := StepReaches(t, CountInFlight(c), capacity);
    assert t.callers == s.callers[c := Working];
  }

  /** A call that no other caller interrupts is a run of the protocol with the effect that the executor's own
      contract states: turned away and counted as rejected when no slot is free, otherwise counted, measured
      and gone without a trace in the channel and the in-flight counter. */
  lemma LoneCallIsARun(s: State, c: nat, d: int, capacity: nat) returns (t: State)
    requires Reachable(s, capacity) && c !in s.callers
    ensures Reachable(t, capacity) && t.sem == s.sem && t.inFlight == s.inFlight && c in t.callers && Done(t.callers[c])
    ensures Stats.WellShaped(s.ring)
    ensures s.sem < capacity ==>
              t.total == s.total + 1 && t.rejected == s.rejected
              && t.history == s.history + [d] && t.ring == Stats.Push(s.ring, d)
    ensures s.sem == capacity ==>
              t.total == s.total && t.rejected == s.rejected + 1 && t.history == s.history && t.ring == s.ring
  {
    ReachableInv(s, capacity);
    if s.sem < capacity {
      t := AdmitOne(s, c, capacity);
      t := StepReaches(t, Observe(c, d), capacity);
      t := StepReaches(t, Uncount(c), capacity);
      t := StepReaches(t, Release(c), capacity);
    } else {
      t := StepReaches(s, Arrive(c), capacity);
      t := StepReaches(t, Decline(c), capacity);
      t := StepReaches(t, CountRejected(c), capacity);
    }
  }

  /** Every in-flight count up to the number of slots is reached. */
  lemma {:induction false} InFlightReaches(n: nat, capacity: nat) returns (s: State)
    requires n <= capacity
    ensures Reachable(s, capacity) && s.inFlight == s.sem == n && s.readers == map[]
    ensures forall c | c in s.callers :: c < n
    decreases n
  {
    if n == 0 {
      s := INIT;
      assert Leads(INIT, [], s, capacity);
    } else {
      var before := InFlightReaches(n - 1, capacity);
      s := AdmitOne(before, n - 1, capacity);
    }
  }

  /** The gate has one slot per allowed concurrent run plus one per queue place, and nothing tells the
      two apart: the number of calls in flight stays within `maxConcurrency` exactly when there is no queue. */
  lemma ConcurrencyCapExactly(maxConcurrency: nat, queueDepth: nat)
    ensures (forall s :: Reachable(s, maxConcurrency + queueDepth) ==> s.inFlight <= maxConcurrency) <==> queueDepth == 0
  {
    var capacity := maxConcurrency + queueDepth;
    if queueDepth == 0 {
      forall s | Reachable(s, capacity) ensures s.inFlight <= maxConcurrency {
        AdmissionIsSafe(s, capacity);
      }
    } else {
      var s := InFlightReaches(maxConcurrency + 1, capacity);
      assert Reachable(s, capacity) && s.inFlight > maxConcurrency;
    }
  }

  // ----- Snapshots taken during a run -----

  /** The report of a finished reader. */
  ghost function ReportOf(r: Reader, maxConcurrency: nat, queueDepth: nat, round: real -> real): Stats.Snapshot
    requires r.Reported? && Stats.IsRounding(round)
  {
    Stats.Report(r.window, r.total, r.rejected, r.inFlight, maxConcurrency, queueDepth, round)
  }

  /** A snapshot whose parts were read at four different moments is still sane. */
  lemma TornSnapshotIsSane(s: State, r: nat, maxConcurrency: nat, queueDepth: nat, round: real -> real)
    requires Reachable(s, maxConcurrency + queueDepth) && r in s.readers && s.readers[r].Reported?
    requires Stats.IsRounding(round)
    ensures var out := ReportOf(s.readers[r], maxConcurrency, queueDepth, round);
            && out.samples <= out.total && out.samples <= Stats.RING_CAP
            && 0 <= out.inFlight <= maxConcurrency + queueDepth
            && 0 <= out.rejected && out.total + out.rejected <= |s.callers.Keys|
            && out.p50MS <= out.p95MS <= out.p99MS <= out.maxMS
  {
    var reader := s.readers[r];
    ReachableInv(s, maxConcurrency + queueDepth);
    Stats.PercentilesInOrder(reader.window, reader.total, reader.rejected, reader.inFlight, maxConcurrency, queueDepth,
                             round);
    assert ReaderSound(s, reader, maxConcurrency + queueDepth);
    var a, b := Members(s.callers, Admitted), Members(s.callers, TurnedAway);
    assert a !! b && a + b <= s.callers.Keys;
    SubsetSize(a + b, s.callers.Keys);
    assert |a + b| == |a| + |b|;
  }

  /** A snapshot may report more calls in flight than it reports in total, by as many as there are slots:
      the total is read before a burst of calls and the in-flight counter after it. */
  lemma TornSnapshotCanInvert(capacity: nat) returns (s: State)
    ensures Reachable(s, capacity)
    ensures 0 in s.readers && s.readers[0] == Reported([], 0, 0, capacity)
  {
    assert Leads(INIT, [], INIT, capacity);
    s := StepReaches(INIT, Copy(0), capacity);
    s := StepReaches(s, LoadTotal(0), capacity);
    s := Burst(s, capacity, capacity);
    s := StepReaches(s, LoadRejected(0), capacity);
    s := StepReaches(s, LoadInFlight(0), capacity);
  }

  lemma {:induction false} Burst(s: State, n: nat, capacity: nat) returns (t: State)
    requires Reachable(s, capacity) && s.callers == map[] && s.sem == 0 && n <= capacity
    requires s.inFlight == s.rejected == 0
    ensures Reachable(t, capacity) && t.readers == s.readers
    ensures t.sem == t.inFlight == n && t.rejected == 0 && forall c | c in t.callers :: c < n
    decreases n
  {
    if n == 0 {
      t := s;
    } else {
      var before := Burst(s, n - 1, capacity);
      t := AdmitOne(before, n - 1, capacity);
    }
  }

  /** No snapshot of any run shows more calls in flight than in total exactly when nothing is ever admitted. */
  lemma NeverInvertedExactly(capacity: nat)
    ensures (forall s, r | Reachable(s, capacity) && r in s.readers && s.readers[r].Reported? ::
               s.readers[r].inFlight <= s.readers[r].total)
            <==> capacity == 0
  {
    if capacity == 0 {
      forall s, r | Reachable(s, capacity) && r in s.readers && s.readers[r].Reported?
        ensures s.readers[r].inFlight <= s.readers[r].total
      {
        ReachableInv(s, capacity);
        assert ReaderSound(s, s.readers[r], capacity);
      }
    } else {
      var s := TornSnapshotCanInvert(capacity);
      assert s.readers[0].inFlight > s.readers[0].total;
    }
  }

  // ----- When a snapshot inverts -----

  /** How often callers went in flight, and came back, during a run. */
  function Starts(steps: seq<Step>): nat {
    if steps == [] then 0 else Bit(steps[0].CountInFlight?) + Starts(steps[1..])
  }

  function Ends(steps: seq<Step>): nat {
    if steps == [] then 0 else Bit(steps[0].Uncount?) + Ends(steps[1..])
  }

  lemma {:induction false} InFlightMoves(s: State, steps: seq<Step>, t: State, capacity: nat)
    requires Leads(s, steps, t, capacity)
    ensures t.inFlight == s.inFlight + Starts(steps) - Ends(steps)
    decreases |steps|
  {
    if steps != [] {
      InFlightMoves(Apply(s, steps[0], capacity), steps[1..], t, capacity);
    }
  }

  /** The durations recorded during a run, in order. */
  function Durations(steps: seq<Step>): seq<int> {
    if steps == [] then []
    else (if steps[0].Observe? then [steps[0].d] else []) + Durations(steps[1..])
  }

  lemma {:induction false} HistoryIsObserved(s: State, steps: seq<Step>, t: State, capacity: nat)
    requires Leads(s, steps, t, capacity)
    ensures t.history == s.history + Durations(steps)
    decreases |steps|
  {
    if steps != [] {
      HistoryIsObserved(Apply(s, steps[0], capacity), steps[1..], t, capacity);
    }
  }

  /** How many of its four reads a reader has done. */
  function Stage(s: State, r: nat): nat {
    if r !in s.readers then 0
    else match s.readers[r]
         case Copied(_) => 1
         case ReadTotal(_, _) => 2
         case ReadRejected(_, _, _) => 3
         case Reported(_, _, _, _) => 4
  }

  function ReadStep(r: nat, stage: nat): Step {
    if stage == 0 then Copy(r) else if stage == 1 then LoadTotal(r) else if stage == 2 then LoadRejected(r)
    else LoadInFlight(r)
  }

  /** A reader's next read takes it one stage on; every other step leaves it alone. */
  lemma StepStages(s: State, step: Step, r: nat, capacity: nat)
    requires Stats.WellShaped(s.ring) && Enabled(s, step, capacity)
    ensures var t := Apply(s, step, capacity);
            if step == ReadStep(r, Stage(s, r)) then Stage(t, r) == Stage(s, r) + 1
            else (r in t.readers <==> r in s.readers) && (r in s.readers ==> t.readers[r] == s.readers[r])
  {
  }

  /** A run in which a reader gets to a stage holds that read, and so splits there. */
  lemma {:induction false} SplitAtRead(s: State, steps: seq<Step>, t: State, r: nat, stage: nat, capacity: nat)
    returns (i: nat, a: State)
    requires Leads(s, steps, t, capacity) && Stage(s, r) <= stage < Stage(t, r)
    ensures i < |steps| && steps[i] == ReadStep(r, stage) && Stage(a, r) == stage
    ensures Leads(s, steps[..i], a, capacity) && Leads(a, steps[i..], t, capacity)
    decreases |steps|
  {
    StepStages(s, steps[0], r, capacity);
    if steps[0] == ReadStep(r, stage) && Stage(s, r) == stage {
      i, a := 0, s;
      assert steps[i..] == steps;
    } else {
      var rest, k := steps[1..], 0;
      k, a := SplitAtRead(Apply(s, steps[0], capacity), rest, t, r, stage, capacity);
      i := k + 1;
      OneFurther(steps, k);
      LeadsFrom(s, steps[0], rest[..k], a, capacity);
    }
  }

  lemma OneFurther(steps: seq<Step>, k: nat)
    requires k < |steps|
    ensures steps[1..][k..] == steps[k + 1..] && [steps[0]] + steps[1..][..k] == steps[..k + 1]
  {
  }

  /** What a reader has read stays read. */
  lemma {:induction false} ReadsStay(s: State, steps: seq<Step>, t: State, r: nat, capacity: nat)
    requires Leads(s, steps, t, capacity) && Stage(s, r) >= 1
    ensures Stage(t, r) >= Stage(s, r) && t.readers[r].window == s.readers[r].window
    ensures Stage(s, r) >= 2 ==> t.readers[r].total == s.readers[r].total
    ensures Stage(s, r) >= 3 ==> t.readers[r].rejected == s.readers[r].rejected
    ensures Stage(s, r) == 4 ==> t.readers[r] == s.readers[r]
    decreases |steps|
  {
    if steps != [] {
      ReadChain(s, steps[0], r, capacity);
      ReadsStay(Apply(s, steps[0], capacity), steps[1..], t, r, capacity);
    }
  }

  /** A read adds to what the reader has. */
  lemma ReadChain(s: State, step: Step, r: nat, capacity: nat)
    requires Stats.WellShaped(s.ring) && Enabled(s, step, capacity) && Stage(s, r) >= 1
    ensures var t := Apply(s, step, capacity);
            && Stage(t, r) >= Stage(s, r) && t.readers[r].window == s.readers[r].window
            && (Stage(s, r) >= 2 ==> t.readers[r].total == s.readers[r].total)
            && (Stage(s, r) >= 3 ==> t.readers[r].rejected == s.readers[r].rejected)
            && (Stage(s, r) == 4 ==> t.readers[r] == s.readers[r])
  {
  }

  /** The run `steps` from `s` to `t`, cut where a reader makes its four reads. */
  datatype Cuts = Cuts(copy: nat, total: nat, rejected: nat, inFlight: nat,
                       atCopy: State, atTotal: State, atRejected: State, atInFlight: State)

  ghost predicate CutAtReads(steps: seq<Step>, t: State, r: nat, capacity: nat, cuts: Cuts) {
    && cuts.copy < cuts.total < cuts.rejected < cuts.inFlight < |steps|
    && steps[cuts.copy] == Copy(r) && steps[cuts.total] == LoadTotal(r)
    && steps[cuts.rejected] == LoadRejected(r) && steps[cuts.inFlight] == LoadInFlight(r)
    && Leads(INIT, steps[..cuts.copy], cuts.atCopy, capacity)
    && Leads(cuts.atCopy, steps[cuts.copy..cuts.total], cuts.atTotal, capacity)
    && Leads(cuts.atTotal, steps[cuts.total..cuts.rejected], cuts.atRejected, capacity)
    && Leads(cuts.atRejected, steps[cuts.rejected..cuts.inFlight], cuts.atInFlight, capacity)
    && Leads(cuts.atInFlight, steps[cuts.inFlight..], t, capacity)
  }

  /** One cut: the run from `s` on splits at the given read, and what that read stored is what the reader has. */
  lemma CutAt(s: State, steps: seq<Step>, from: nat, t: State, r: nat, stage: nat, capacity: nat)
    returns (i: nat, a: State)
    requires from <= |steps| && Leads(s, steps[from..], t, capacity)
    requires Stage(s, r) <= stage < 4 && r in t.readers && t.readers[r].Reported?
    ensures from <= i < |steps| && steps[i] == ReadStep(r, stage) && Stage(a, r) == stage
    ensures Leads(s, steps[from..i], a, capacity) && Leads(a, steps[i..], t, capacity)
    ensures Stats.WellShaped(a.ring)
    ensures stage == 0 ==> t.readers[r].window == Stats.Window(a.ring)
    ensures stage == 1 ==> t.readers[r].total == a.total
    ensures stage == 2 ==> t.readers[r].rejected == a.rejected
    ensures stage == 3 ==> t.readers[r].inFlight == a.inFlight
  {
    var k;
    k, a := SplitAtRead(s, steps[from..], t, r, stage, capacity);
    i := from + k;
    assert steps[from..][..k] == steps[from..i] && steps[from..][k..] == steps[i..];
    ReadIsKept(a, steps[i..], t, r, stage, capacity);
  }

  lemma ReadIsKept(a: State, steps: seq<Step>, t: State, r: nat, stage: nat, capacity: nat)
    requires Leads(a, steps, t, capacity) && steps != [] && Stage(a, r) == stage < 4 && steps[0] == ReadStep(r, stage)
    requires r in t.readers && t.readers[r].Reported?
    ensures Stats.WellShaped(a.ring)
    ensures stage == 0 ==> t.readers[r].window == Stats.Window(a.ring)
    ensures stage == 1 ==> t.readers[r].total == a.total
    ensures stage == 2 ==> t.readers[r].rejected == a.rejected
    ensures stage == 3 ==> t.readers[r].inFlight == a.inFlight
  {
    ReadsStay(Apply(a, steps[0], capacity), steps[1..], t, r, capacity);
  }

  /** The run of a finished reader can be cut at its four reads, and its parts are those of the four moments: the
      ring's window at the first, then total, rejected and in-flight. */
  lemma ReaderSawFourMoments(steps: seq<Step>, t: State, r: nat, capacity: nat) returns (cuts: Cuts)
    requires Leads(INIT, steps, t, capacity) && r in t.readers && t.readers[r].Reported?
    ensures CutAtReads(steps, t, r, capacity, cuts)
    ensures Stats.WellShaped(cuts.atCopy.ring)
    ensures t.readers[r]
            == Reported(Stats.Window(cuts.atCopy.ring), cuts.atTotal.total, cuts.atRejected.rejected, cuts.atInFlight.inFlight)
  {
    assert steps[0..] == steps;
    var h, z := CutAt(INIT, steps, 0, t, r, 0, capacity);
    var i, a := CutAt(z, steps, h, t, r, 1, capacity);
    var k, c := CutAt(a, steps, i, t, r, 2, capacity);
    var j, b := CutAt(c, steps, k, t, r, 3, capacity);
    assert steps[0..h] == steps[..h];
    cuts := Cuts(h, i, k, j, z, a, c, b);
  }

  /** What a finished reader reports, in terms of the run it took part in. The run splits at the reader's four reads.
      The samples are, as a multiset, the last 1024 durations that had been recorded at the first (all of them if
      fewer), and the three counters are those of the other three moments. The report shows more calls in flight
      than in total exactly when the calls started between the loads of the two outnumber those ended there by more
      than the admitted calls that were not in flight at the first of them. */
  lemma TornSnapshotExactly(steps: seq<Step>, t: State, r: nat, maxConcurrency: nat, queueDepth: nat, round: real -> real)
    returns (cuts: Cuts)
    requires Leads(INIT, steps, t, maxConcurrency + queueDepth) && r in t.readers && t.readers[r].Reported?
    requires Stats.IsRounding(round)
    ensures CutAtReads(steps, t, r, maxConcurrency + queueDepth, cuts)
    ensures multiset(t.readers[r].window) == multiset(Stats.Recent(cuts.atCopy.history))
    ensures cuts.atCopy.history == Durations(steps[..cuts.copy])
    ensures var out := ReportOf(t.readers[r], maxConcurrency, queueDepth, round);
            && out.samples == |Stats.Recent(cuts.atCopy.history)|
            && out.total == cuts.atTotal.total && out.rejected == cuts.atRejected.rejected
            && out.inFlight == cuts.atInFlight.inFlight
            && var between := steps[cuts.total..cuts.inFlight];
            && out.inFlight <= out.total + Starts(between)
            && (out.inFlight > out.total
                <==> Starts(between) - Ends(between) > cuts.atTotal.total - cuts.atTotal.inFlight)
  {
    var capacity := maxConcurrency + queueDepth;
    cuts := ReaderSawFourMoments(steps, t, r, capacity);
    WindowOfRun(steps[..cuts.copy], cuts.atCopy, capacity);
    Stats.ReportExactly(t.readers[r].window, t.readers[r].total, t.readers[r].rejected, t.readers[r].inFlight,
                        maxConcurrency, queueDepth, round);
    BetweenLoads(steps, t, r, capacity, cuts);
  }

  lemma WindowOfRun(steps: seq<Step>, z: State, capacity: nat)
    requires Leads(INIT, steps, z, capacity)
    ensures Stats.WellShaped(z.ring) && multiset(Stats.Window(z.ring)) == multiset(Stats.Recent(z.history))
    ensures |Stats.Window(z.ring)| == |Stats.Recent(z.history)|
    ensures z.history == Durations(steps)
  {
    InitInv(capacity);
    RunKeepsInv(INIT, steps, z, capacity);
    Stats.WindowIsRecent(z.ring, z.history);
    HistoryIsObserved(INIT, steps, z, capacity);
  }

  lemma BetweenLoads(steps: seq<Step>, t: State, r: nat, capacity: nat, cuts: Cuts)
    requires CutAtReads(steps, t, r, capacity, cuts)
    ensures var between := steps[cuts.total..cuts.inFlight];
            && cuts.atInFlight.inFlight == cuts.atTotal.inFlight + Starts(between) - Ends(between)
            && cuts.atTotal.inFlight <= cuts.atTotal.total
  {
    var i, k, j := cuts.total, cuts.rejected, cuts.inFlight;
    LeadsConcat(cuts.atTotal, steps[i..k], cuts.atRejected, steps[k..j], cuts.atInFlight, capacity);
    assert steps[i..k] + steps[k..j] == steps[i..j];
    InFlightMoves(cuts.atTotal, steps[i..j], cuts.atInFlight, capacity);
    LeadsConcat(INIT, steps[..cuts.copy], cuts.atCopy, steps[cuts.copy..i], cuts.atTotal, capacity);
    RunIsOrderly(steps[..cuts.copy] + steps[cuts.copy..i], cuts.atTotal, capacity);
  }

  lemma RunIsOrderly(steps: seq<Step>, a: State, capacity: nat)
    requires Leads(INIT, steps, a, capacity)
    ensures a.inFlight <= a.total
  {
    InitInv(capacity);
    RunKeepsInv(INIT, steps, a, capacity);
    SubgroupSize(a.callers, InFlight, Admitted);
  }
}
