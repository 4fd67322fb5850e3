/** What a prefetch round's records mean: each is what the events of the run add up to. */
module PrefetchHistory {
  import opened Options
  import opened RoutePrefetch

  // ----- Runs, one event longer -----

  lemma {:induction false} LastEvent(s: State, before: seq<Event>, e: Event)
    ensures Possible(s, before + [e]) <==> Possible(s, before) && Enabled(After(s, before), e)
    ensures Possible(s, before + [e]) ==> After(s, before + [e]) == Apply(After(s, before), e)
    decreases |before|
  {
    var events := before + [e];
    if before == [] {
      assert events == [e] && [e][1..] == [];
    } else {
      assert events[0] == before[0] && events[1..] == before[1..] + [e];
      if Enabled(s, before[0]) {
        LastEvent(Apply(s, before[0]), before[1..], e);
      }
    }
  }

  lemma {:induction false} SplitRun(s: State, events: seq<Event>, n: nat)
    requires Possible(s, events) && n <= |events|
    ensures Possible(s, events[..n]) && Possible(After(s, events[..n]), events[n..])
    ensures After(After(s, events[..n]), events[n..]) == After(s, events)
    decreases |events|
  {
    if n > 0 {
      assert events[..n][1..] == events[1..][..n - 1] && events[n..] == events[1..][n - 1..];
      SplitRun(Apply(s, events[0]), events[1..], n - 1);
    } else {
      assert events[n..] == events;
    }
  }

  // ----- What happened, event by event -----

  /** What is left of the day's calls. */
  function CallsLeft(s: State): int {
    if s.used < s.cap then s.cap - s.used else 0
  }

  /** The event read more remaining calls than the reserve, so a fetch began. */
  predicate Begins(s: State, e: Event) {
    e.ReadRemaining? && CallsLeft(s) > s.reserve
  }

  /** The event counted a call for the round. */
  predicate Counts(s: State, e: Event) {
    e.SpendCall? && s.used + 1 <= s.cap
  }

  predicate Stops(e: Event) {
    e.StopRound? || (e.LookForOldRows? && !e.found)
  }

  predicate Refreshes(e: Event) {
    (e.LookForOldRows? && e.found) || (e.FetchEnds? && e.ok)
  }

  function PilotCalls(s: State, e: Event): nat {
    if e.PilotSpends? && s.used + e.calls <= s.cap then e.calls else 0
  }

  function Number(b: bool): nat {
    if b then 1 else 0
  }

  /** The tasks whose fetch began, those a call was counted for, and the figures, added up over a run. */
  datatype Tally = Tally(began: seq<Task>, counted: seq<Task>, late: nat, pilots: nat, refreshed: nat, stopped: bool)

  function TallyOfOne(s: State, e: Event): Tally {
    Tally(if Begins(s, e) then [e.task] else [], if Counts(s, e) then [e.task] else [],
          Number(Counts(s, e) && CallsLeft(s) <= s.reserve), PilotCalls(s, e), Number(Refreshes(e)), Stops(e))
  }

  function Joined(a: Tally, b: Tally): Tally {
    Tally(a.began + b.began, a.counted + b.counted, a.late + b.late, a.pilots + b.pilots,
          a.refreshed + b.refreshed, a.stopped || b.stopped)
  }

  ghost function TallyOf(s: State, events: seq<Event>): Tally
    requires Possible(s, events)
    decreases |events|
  {
    if events == [] then Tally([], [], 0, 0, 0, false)
    else Joined(TallyOfOne(s, events[0]), TallyOf(Apply(s, events[0]), events[1..]))
  }

  /** The records have grown by the tally. */
  predicate Adds(s: State, t: State, tally: Tally) {
    && t.attempted == s.attempted + tally.began && t.spent == s.spent + tally.counted
    && t.late == s.late + tally.late && t.pilotCalls == s.pilotCalls + tally.pilots
    && t.fetched == s.fetched + tally.refreshed && (t.stopped <==> s.stopped || tally.stopped)
    && t.used == s.used + |tally.counted| + tally.pilots && t.cap == s.cap && t.reserve == s.reserve
  }

  lemma OneAdds(s: State, e: Event)
    requires Enabled(s, e)
    ensures Adds(s, Apply(s, e), TallyOfOne(s, e))
  {
  }

  lemma JoinedAdds(s: State, t: State, u: State, a: Tally, b: Tally)
    requires Adds(s, t, a) && Adds(t, u, b)
    ensures Adds(s, u, Joined(a, b))
  {
  }

  /** Every record of a round is the tally of its events, and the counter is what the round and the pilots spent. */
  lemma {:induction false} RecordsTally(s: State, events: seq<Event>)
    requires Possible(s, events)
    ensures Adds(s, After(s, events), TallyOf(s, events))
    decreases |events|
  {
    if events != [] {
      var e, s' := events[0], Apply(s, events[0]);
      OneAdds(s, e);
      RecordsTally(s', events[1..]);
      JoinedAdds(s, s', After(s', events[1..]), TallyOfOne(s, e), TallyOf(s', events[1..]));
    }
  }

  /**
   * Said of the events alone: in any round, whatever pilots spend meanwhile, at most five of its calls
   * are counted after the rest of the day has dropped to the reserve, the day never passes its cap, no
   * task's call is counted twice, and none is counted whose fetch did not begin.
   */
  lemma RoundTallied(s: State, events: seq<Event>, due: seq<Terminal>)
    requires Initial(s, due) && Possible(s, events)
    ensures var tally := TallyOf(s, events);
            && tally.late <= 5
            && (s.used + |tally.counted| + tally.pilots > 0 ==> s.used + |tally.counted| + tally.pilots <= s.cap)
            && Distinct(tally.counted) && Distinct(tally.began) && forall t :: t in tally.counted ==> t in tally.began
  {
    RecordsTally(s, events);
    RoundIsBounded(s, events, due);
    AttemptedInTasks(s, events, due);
    assert s.attempted + TallyOf(s, events).began == TallyOf(s, events).began;
    assert s.spent + TallyOf(s, events).counted == TallyOf(s, events).counted;
  }

  // ----- Once a round has stopped -----

  /** A task still waiting when the round stops never begins a fetch. */
  lemma {:induction false} NoneBeginsAfterStop(s: State, events: seq<Event>, task: Task)
    requires s.stopped && s.Is(task, Waiting) && Possible(s, events)
    ensures task !in TallyOf(s, events).began
    ensures After(s, events).Is(task, Waiting) || After(s, events).Is(task, Done)
    decreases |events|
  {
    StoppedStaysOut(s, events, task);
  }

  lemma {:induction false} StoppedStaysOut(s: State, events: seq<Event>, task: Task)
    requires s.stopped && (s.Is(task, Waiting) || s.Is(task, Done)) && Possible(s, events)
    ensures task !in TallyOf(s, events).began
    ensures After(s, events).Is(task, Waiting) || After(s, events).Is(task, Done)
    decreases |events|
  {
    if events != [] {
      StoppedStaysOut(Apply(s, events[0]), events[1..], task);
    }
  }

  // ----- How a task comes to its end -----

  /** The event by which a task leaves the phase. */
  predicate Leaves(e: Event, task: Task, phase: Phase) {
    match phase
    case Stopping => e == StopRound(task)
    case Refused => (e.LookForOldRows? && e.task == task) || e == RaiseUnspent(task)
    case Fetching => e.FetchEnds? && e.task == task
    case _ => false
  }

  ghost predicate LeavesFrom(events: seq<Event>, from: nat, task: Task, phase: Phase) {
    exists j: nat :: from <= j < |events| && Leaves(events[j], task, phase)
  }

  lemma {:induction false} LeftSomehow(s: State, events: seq<Event>, task: Task, phase: Phase)
    requires Possible(s, events) && s.Is(task, phase) && After(s, events).Is(task, Done)
    requires phase == Stopping || phase == Refused || phase == Fetching
    ensures LeavesFrom(events, 0, task, phase)
    decreases |events|
  {
    var s' := Apply(s, events[0]);
    if s'.Is(task, phase) {
      LeftSomehow(s', events[1..], task, phase);
      var j: nat :| j < |events[1..]| && Leaves(events[1..][j], task, phase);
      assert Leaves(events[j + 1], task, phase);
    } else {
      assert Leaves(events[0], task, phase);
    }
  }

  /** Where a task goes from reading the remaining calls and from spending one. */
  function NextPhase(s: State, e: Event): Phase {
    if e.ReadRemaining? then (if CallsLeft(s) > s.reserve then Cleared else Stopping)
    else if s.used + 1 <= s.cap then Fetching
    else Refused
  }

  /**
   * A task that is done and that read no more calls than the reserve has stopped the round. One whose
   * call was counted has ended its fetch, and one that was refused its call has looked for old rows
   * instead or failed.
   */
  lemma TaskEnds(s: State, events: seq<Event>, i: nat, task: Task)
    requires Possible(s, events) && i < |events| && After(s, events).Is(task, Done)
    requires events[i] == ReadRemaining(task) || events[i] == SpendCall(task)
    ensures Possible(s, events[..i])
    ensures var phase := NextPhase(After(s, events[..i]), events[i]);
            phase != Cleared ==> LeavesFrom(events, i + 1, task, phase)
  {
    SplitRun(s, events, i);
    var t, rest := After(s, events[..i]), events[i..];
    assert rest[0] == events[i];
    var phase := NextPhase(t, events[i]);
    if phase != Cleared {
      LeftSomehow(Apply(t, rest[0]), rest[1..], task, phase);
      var j: nat :| j < |rest[1..]| && Leaves(rest[1..][j], task, phase);
      assert Leaves(events[i + 1 + j], task, phase);
    }
  }

  // ----- Every round comes to its end -----

  predicate IsTaskEvent(e: Event) {
    !e.PilotSpends?
  }

  /** While a task is not done, some task can go on, whatever pilots do. */
  lemma NeverStuck(s: State, due: seq<Terminal>, task: Task) returns (e: Event)
    requires Invariant(s, due) && task in s.phases && s.phases[task] != Done
    ensures Enabled(s, e) && IsTaskEvent(e)
  {
    if other :| other in s.phases && InSemaphore(s.phases[other]) {
      e := NextOf(other, s.phases[other]);
    } else {
      assert Running(s.phases) == {};
      e := Enter(task);
    }
  }

  function NextOf(task: Task, phase: Phase): Event {
    match phase
    case Waiting => Enter(task)
    case Reading => ReadRemaining(task)
    case Cleared => SpendCall(task)
    case Refused => RaiseUnspent(task)
    case Stopping => StopRound(task)
    case Fetching => FetchEnds(task, true)
    case Done => PilotSpends(0)
  }

  /** How many events of its own a task can still go through. */
  function StepsLeft(phase: Phase): nat {
    match phase
    case Waiting => 4
    case Reading => 3
    case Cleared => 2
    case Done => 0
    case _ => 1
  }

  function AllStepsLeft(phases: map<Task, Phase>, n: nat): nat {
    if n == 0 then 0
    else AllStepsLeft(phases, n - 1) + (if n - 1 in phases then StepsLeft(phases[n - 1]) else 0)
  }

  function TaskEvents(events: seq<Event>): nat {
    if events == [] then 0 else (if IsTaskEvent(events[0]) then 1 else 0) + TaskEvents(events[1..])
  }

  lemma {:induction false} MoveLowers(phases: map<Task, Phase>, task: Task, to: Phase, n: nat)
    requires task in phases && StepsLeft(to) < StepsLeft(phases[task])
    ensures AllStepsLeft(phases[task := to], n) <= AllStepsLeft(phases, n)
    ensures task < n ==> AllStepsLeft(phases[task := to], n) < AllStepsLeft(phases, n)
  {
    if n > 0 {
      MoveLowers(phases, task, to, n - 1);
    }
  }

  lemma {:induction false} EventsLowerSteps(s: State, events: seq<Event>, due: seq<Terminal>)
    requires Invariant(s, due) && Possible(s, events)
    ensures TaskEvents(events) + AllStepsLeft(After(s, events).phases, |due|) <= AllStepsLeft(s.phases, |due|)
    decreases |events|
  {
    if events != [] {
      ApplyKeepsInvariant(s, events[0], due);
      EventsLowerSteps(Apply(s, events[0]), events[1..], due);
      EventLowersSteps(s, events[0], due);
    }
  }

  lemma EventLowersSteps(s: State, e: Event, due: seq<Terminal>)
    requires Invariant(s, due) && Enabled(s, e)
    ensures AllStepsLeft(Apply(s, e).phases, |due|) + (if IsTaskEvent(e) then 1 else 0) <= AllStepsLeft(s.phases, |due|)
  {
    if IsTaskEvent(e) {
      var phase := MovesOneTask(s, e);
      assert e.task in TasksFor(due);
      MoveLowers(s.phases, e.task, phase, |due|);
    }
  }

  lemma MovesOneTask(s: State, e: Event) returns (phase: Phase)
    requires Enabled(s, e) && IsTaskEvent(e)
    ensures e.task in s.phases && Apply(s, e).phases == s.phases[e.task := phase]
    ensures StepsLeft(phase) < StepsLeft(s.phases[e.task])
  {
    phase := Apply(s, e).phases[e.task];
  }

  lemma {:induction false} AtMostFourEach(phases: map<Task, Phase>, n: nat)
    ensures AllStepsLeft(phases, n) <= 4 * n
  {
    if n > 0 {
      AtMostFourEach(phases, n - 1);
    }
  }

  /**
   * No round runs on: however it interleaves with the pilots, its tasks go through at most four events
   * for each due terminal, and it cannot halt before every task is done.
   */
  lemma RoundEnds(s: State, events: seq<Event>, due: seq<Terminal>)
    requires Initial(s, due) && Possible(s, events)
    ensures TaskEvents(events) <= 4 * |due|
    ensures (exists t :: t in TasksFor(due) && !After(s, events).Is(t, Done)) ==>
              exists e :: Enabled(After(s, events), e) && IsTaskEvent(e)
  {
    InitialIsInvariant(s, due);
    InvariantHolds(s, events, due);
    EventsLowerSteps(s, events, due);
    AtMostFourEach(s.phases, |due|);
    if t :| t in TasksFor(due) && !After(s, events).Is(t, Done) {
      var e := NeverStuck(After(s, events), due, t);
    }
  }

  // ----- And each of its ends can come about -----

  lemma OneMore(s: State, events: seq<Event>, e: Event)
    requires Possible(s, events) && Enabled(After(s, events), e)
    ensures Possible(s, events + [e]) && After(s, events + [e]) == Apply(After(s, events), e)
  {
    LastEvent(s, events, e);
  }

  /** Once cleared, any task can find the day's calls used up by pilots. */
  lemma Refusing(s: State, due: seq<Terminal>, task: Task) returns (events: seq<Event>)
    requires Initial(s, due) && task < |due| && CallsLeft(s) > s.reserve >= 0
    ensures Possible(s, events)
    ensures var t := After(s, events); t.Is(task, Refused) && t.used == t.cap && t.fetched == 0 && !t.stopped
  {
    assert Running(s.phases) == {};
    events := [];
    OneMore(s, events, Enter(task));
    events := events + [Enter(task)];
    OneMore(s, events, ReadRemaining(task));
    events := events + [ReadRemaining(task)];
    OneMore(s, events, PilotSpends(CallsLeft(s)));
    events := events + [PilotSpends(CallsLeft(s))];
    OneMore(s, events, SpendCall(task));
    events := events + [SpendCall(task)];
  }

  /** In any round that starts above the reserve, any task can be refused its call, and then find old rows, find none, or fail. */
  lemma RefusalHappens(s: State, due: seq<Terminal>, task: Task, e: Event) returns (events: seq<Event>)
    requires Initial(s, due) && task < |due| && CallsLeft(s) > s.reserve >= 0
    requires e == LookForOldRows(task, true) || e == LookForOldRows(task, false) || e == RaiseUnspent(task)
    ensures Possible(s, events + [e])
    ensures var t := After(s, events + [e]);
            t.Is(task, Done) && t.used == t.cap && t.fetched == Number(e == LookForOldRows(task, true))
            && (t.stopped <==> e == LookForOldRows(task, false))
  {
    events := Refusing(s, due, task);
    OneMore(s, events, e);
  }

  // ----- How many calls a round can spend from the reserve, exactly -----

  /** The calls counted from the reserve came out of it. */
  ghost predicate FromReserve(s: State) {
    if CallsLeft(s) <= s.reserve then s.late + CallsLeft(s) <= s.reserve else s.late == 0
  }

  lemma {:induction false} AlwaysFromReserve(s: State, events: seq<Event>)
    requires FromReserve(s) && Possible(s, events)
    ensures FromReserve(After(s, events))
    decreases |events|
  {
    if events != [] {
      AlwaysFromReserve(Apply(s, events[0]), events[1..]);
    }
  }

  /** The first m tasks are in one phase, the next up to n in another, and the rest wait. */
  ghost predicate Staged(s: State, due: seq<Terminal>, m: nat, n: nat, first: Phase, second: Phase) {
    && s.phases.Keys == TasksFor(due)
    && forall t :: t in s.phases ==> s.phases[t] == if t < m then first else if t < n then second else Waiting
  }

  ghost predicate SameFigures(s: State, t: State) {
    t.cap == s.cap && t.reserve == s.reserve && t.used == s.used && t.late == s.late && !t.stopped
  }

  function Below(n: nat): set<Task> {
    set k: Task | k < n && IsBelow(k, n)
  }

  predicate IsBelow(k: Task, n: nat) {
    k < n
  }

  lemma {:induction false} SizeBelow(n: nat)
    ensures |Below(n)| == n
  {
    if n > 0 {
      SizeBelow(n - 1);
      SizeWithout(Below(n), n - 1);
      assert Below(n) - {n - 1} == Below(n - 1);
    }
  }

  lemma {:induction false} AllEnter(s: State, due: seq<Terminal>, n: nat) returns (events: seq<Event>)
    requires Initial(s, due) && n <= |due| && n <= 5
    ensures Possible(s, events) && SameFigures(s, After(s, events))
    ensures Staged(After(s, events), due, 0, n, Cleared, Reading)
  {
    events := [];
    if n > 0 {
      events := AllEnter(s, due, n - 1);
      var t := After(s, events);
      assert Running(t.phases) <= Below(n - 1);
      SizeBelow(n - 1);
      SubsetSize(Running(t.phases), Below(n - 1));
      assert t.phases[n - 1] == Waiting;
      OneMore(s, events, Enter(n - 1));
      events := events + [Enter(n - 1)];
    }
  }

  lemma {:induction false} AllRead(s: State, due: seq<Terminal>, n: nat, m: nat) returns (events: seq<Event>)
    requires Initial(s, due) && m <= n <= |due| && n <= 5 && CallsLeft(s) > s.reserve
    ensures Possible(s, events) && SameFigures(s, After(s, events))
    ensures Staged(After(s, events), due, m, n, Cleared, Reading)
    decreases m
  {
    if m == 0 {
      events := AllEnter(s, due, n);
    } else {
      events := AllRead(s, due, n, m - 1);
      assert After(s, events).phases[m - 1] == Reading;
      OneMore(s, events, ReadRemaining(m - 1));
      events := events + [ReadRemaining(m - 1)];
    }
  }

  lemma {:induction false} AllSpend(s: State, due: seq<Terminal>, n: nat, m: nat) returns (events: seq<Event>)
    requires Initial(s, due) && m <= n <= |due| && n <= 5 && CallsLeft(s) > s.reserve >= n
    ensures Possible(s, events)
    ensures var t := After(s, events);
            Staged(t, due, m, n, Fetching, Cleared) && t.cap == s.cap && t.reserve == s.reserve
            && CallsLeft(t) == t.reserve - m && t.late == m
    decreases m
  {
    if m == 0 {
      events := AllRead(s, due, n, n);
      OneMore(s, events, PilotSpends(CallsLeft(s) - s.reserve));
      events := events + [PilotSpends(CallsLeft(s) - s.reserve)];
    } else {
      events := AllSpend(s, due, n, m - 1);
      assert After(s, events).phases[m - 1] == Cleared;
      OneMore(s, events, SpendCall(m - 1));
      events := events + [SpendCall(m - 1)];
    }
  }

  lemma ReserveIsEnough(s: State, events: seq<Event>, due: seq<Terminal>)
    requires Initial(s, due) && Possible(s, events) && s.reserve >= 0
    ensures TallyOf(s, events).late <= 5 && TallyOf(s, events).late <= s.reserve
  {
    RoundTallied(s, events, due);
    RecordsTally(s, events);
    AlwaysFromReserve(s, events);
    LateOf(After(s, events));
  }

  lemma LateOf(s: State)
    requires FromReserve(s) && s.reserve >= 0
    ensures s.late <= s.reserve
  {
  }

  /**
   * A round never spends more of the reserve than the reserve has, nor more than five calls of it; and
   * any number within both, and within the due terminals, some round starting above the reserve spends.
   */
  lemma ReserveSpentExactly(s: State, due: seq<Terminal>, n: nat)
    requires Initial(s, due) && n <= |due| && CallsLeft(s) > s.reserve >= 0
    ensures (exists events :: Possible(s, events) && TallyOf(s, events).late == n) <==> n <= 5 && n <= s.reserve
  {
    if n <= 5 && n <= s.reserve {
      var events := AllSpend(s, due, n, n);
      RecordsTally(s, events);
      assert TallyOf(s, events).late == n;
    } else {
      forall events | Possible(s, events) ensures TallyOf(s, events).late != n {
        ReserveIsEnough(s, events, due);
      }
    }
  }
}
