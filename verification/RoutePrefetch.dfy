/**
 * One prefetch round within a day: a task per due terminal, five at a time, while pilots spend from
 * the same counter. Each event is one stretch of code, or one database statement, between two awaits.
 */
module RoutePrefetch {
  import opened Options
  import UexBudget

  const PREFETCH_CONCURRENCY: nat := 5

  type Terminal = int
  type Task = nat

  // ----- Which terminals are due -----

  predicate IsDue(terminal: Terminal, fetchedAt: map<Terminal, real>, now: real, recentEnoughS: real) {
    terminal in fetchedAt ==> now - fetchedAt[terminal] >= recentEnoughS
  }

  function Due(terminals: seq<Terminal>, fetchedAt: map<Terminal, real>, now: real, recentEnoughS: real): seq<Terminal> {
    if terminals == [] then []
    else
      var last := terminals[|terminals| - 1];
      Due(terminals[..|terminals| - 1], fetchedAt, now, recentEnoughS)
      + (if IsDue(last, fetchedAt, now, recentEnoughS) then [last] else [])
  }

  /** Each terminal never fetched, or fetched no later than recentEnoughS ago, as often as it is listed, and no other. */
  lemma {:induction false} DueCounts(terminals: seq<Terminal>, fetchedAt: map<Terminal, real>, now: real, recentEnoughS: real)
    ensures forall t :: multiset(Due(terminals, fetchedAt, now, recentEnoughS))[t]
                     == if t !in fetchedAt || fetchedAt[t] + recentEnoughS <= now then multiset(terminals)[t] else 0
  {
    if terminals != [] {
      var before, last := terminals[..|terminals| - 1], terminals[|terminals| - 1];
      DueCounts(before, fetchedAt, now, recentEnoughS);
      assert terminals == before + [last];
    }
  }

  /** The order is the cache's. */
  lemma {:induction false} DueInOrder(
    before: seq<Terminal>, after: seq<Terminal>, fetchedAt: map<Terminal, real>, now: real, recentEnoughS: real
  )
    ensures Due(before + after, fetchedAt, now, recentEnoughS)
         == Due(before, fetchedAt, now, recentEnoughS) + Due(after, fetchedAt, now, recentEnoughS)
  {
    if after == [] {
      assert before + after == before;
    } else {
      var rest := after[..|after| - 1];
      assert (before + after)[..|before + after| - 1] == before + rest;
      DueInOrder(before, rest, fetchedAt, now, recentEnoughS);
    }
  }

  /** The due terminals, in their order in the cache. */
  method DueTerminals(terminals: seq<Terminal>, fetchedAt: map<Terminal, real>, now: real, intervalS: real)
    returns (due: seq<Terminal>)
    ensures due == Due(terminals, fetchedAt, now, intervalS * 0.75)
  {
    due := [];
    for i := 0 to |terminals|
      invariant due == Due(terminals[..i], fetchedAt, now, intervalS * 0.75)
    {
      assert terminals[..i + 1][..i] == terminals[..i];
      if terminals[i] !in fetchedAt || now - fetchedAt[terminals[i]] >= intervalS * 0.75 {
        due := due + [terminals[i]];
      }
    }
    assert terminals[..|terminals|] == terminals;
  }

  // ----- The round -----

  /**
   * Where a task is: waiting for the semaphore; reading the remaining calls; cleared, having read more
   * than the reserve and begun its fetch, with its call not yet spent; refused that call, looking for
   * old rows instead; about to stop the round; fetching, with its call spent; done.
   */
  datatype Phase = Waiting | Reading | Cleared | Refused | Stopping | Fetching | Done

  /**
   * Task k fetches the k-th due terminal. attempted lists the tasks whose fetch began and spent those
   * whose call was counted; late counts the calls the round spent once the day's remaining calls were
   * already down to the reserve.
   */
  datatype State = State(
    cap: int, reserve: int, used: nat, pilotCalls: nat, phases: map<Task, Phase>,
    stopped: bool, fetched: nat, attempted: seq<Task>, spent: seq<Task>, late: nat
  ) {
    function Remaining(): nat {
      if cap - used > 0 then cap - used else 0
    }

    predicate AtReserve() {
      Remaining() <= reserve
    }

    predicate Is(task: Task, phase: Phase) {
      task in phases && phases[task] == phase
    }
  }

  predicate InSemaphore(phase: Phase) {
    phase != Waiting && phase != Done
  }

  function Running(phases: map<Task, Phase>): set<Task> {
    set t | t in phases && InSemaphore(phases[t])
  }

  predicate InFetch(phase: Phase) {
    phase == Cleared || phase == Refused || phase == Fetching
  }

  /** The tasks whose fetch has begun and not ended. */
  function Open(phases: map<Task, Phase>): set<Task> {
    set t | t in phases && InFetch(phases[t])
  }

  function In(phases: map<Task, Phase>, phase: Phase): set<Task> {
    set t | t in phases && phases[t] == phase
  }

  datatype Event =
    | Enter(task: Task)
    | ReadRemaining(task: Task)
    | SpendCall(task: Task)
    | LookForOldRows(task: Task, found: bool)
    | RaiseUnspent(task: Task)
    | StopRound(task: Task)
    | FetchEnds(task: Task, ok: bool)
    | PilotSpends(calls: nat)

  ghost predicate Enabled(s: State, e: Event) {
    match e
    case Enter(t) => s.Is(t, Waiting) && |Running(s.phases)| < PREFETCH_CONCURRENCY
    case ReadRemaining(t) => s.Is(t, Reading)
    case SpendCall(t) => s.Is(t, Cleared)
    case LookForOldRows(t, _) => s.Is(t, Refused)
    case RaiseUnspent(t) => s.Is(t, Cleared) || s.Is(t, Refused)
    case StopRound(t) => s.Is(t, Stopping)
    case FetchEnds(t, _) => s.Is(t, Fetching)
    case PilotSpends(_) => true
  }

  function Move(s: State, task: Task, phase: Phase): State {
    s.(phases := s.phases[task := phase])
  }

  ghost function Apply(s: State, e: Event): State
    requires Enabled(s, e)
  {
    match e
    case Enter(t) => Move(s, t, if s.stopped then Done else Reading)
    case ReadRemaining(t) =>
      if s.AtReserve() then Move(s, t, Stopping) else Move(s, t, Cleared).(attempted := s.attempted + [t])
    case SpendCall(t) =>
      if UexBudget.Accepts(s.cap, s.used, 1) then
        Move(s, t, Fetching).(used := s.used + 1, spent := s.spent + [t], late := if s.AtReserve() then s.late + 1 else s.late)
      else
        Move(s, t, Refused)
    case LookForOldRows(t, found) =>
      if found then Move(s, t, Done).(fetched := s.fetched + 1) else Move(s, t, Done).(stopped := true)
    case RaiseUnspent(t) => Move(s, t, Done)
    case StopRound(t) => Move(s, t, Done).(stopped := true)
    case FetchEnds(t, ok) => Move(s, t, Done).(fetched := if ok then s.fetched + 1 else s.fetched)
    case PilotSpends(n) =>
      if UexBudget.Accepts(s.cap, s.used, n) then s.(used := s.used + n, pilotCalls := s.pilotCalls + n) else s
  }

  /** A task for each of the due terminals. */
  function TasksFor(due: seq<Terminal>): set<Task> {
    set k: Task | k < |due| && IsTask(k, due)
  }

  predicate IsTask(k: Task, due: seq<Terminal>) {
    k < |due|
  }

  ghost predicate Initial(s: State, due: seq<Terminal>) {
    && s.phases == (map t | t in TasksFor(due) :: Waiting)
    && !s.stopped && s.fetched == 0 && s.attempted == [] && s.spent == [] && s.late == 0
    && s.used == s.pilotCalls && (s.used > 0 ==> s.used <= s.cap)
  }

  // ----- The invariant -----

  /** Five run at once; once the remaining calls are down to the reserve, only tasks cleared before can still spend. */
  ghost predicate Bounded(s: State) {
    && |Running(s.phases)| <= PREFETCH_CONCURRENCY
    && (if s.AtReserve() then s.late + |In(s.phases, Cleared)| <= PREFETCH_CONCURRENCY else s.late == 0)
  }

  /** The counter is what pilots and the round spent, under the cap. */
  ghost predicate Counted(s: State) {
    s.used == s.pilotCalls + |s.spent| && (s.used > 0 ==> s.used <= s.cap)
  }

  ghost predicate Distinct(tasks: seq<Task>) {
    forall i, j :: 0 <= i < j < |tasks| ==> tasks[i] != tasks[j]
  }

  /** Each task begins its fetch at most once, and none ends without having begun it unless the round stopped. */
  ghost predicate AttemptsOnce(s: State) {
    && Distinct(s.attempted)
    && (forall t :: t in s.attempted ==> t in s.phases && s.phases[t] != Waiting && s.phases[t] != Reading)
    && (forall t :: t in s.phases && InFetch(s.phases[t]) ==> t in s.attempted)
    && (!s.stopped ==> forall t :: s.Is(t, Done) ==> t in s.attempted)
  }

  /** What was fetched and what is being fetched has been attempted. */
  ghost predicate FetchedAttempted(s: State) {
    s.fetched + |Open(s.phases)| <= |s.attempted|
  }

  /** Each fetch spends at most one call. */
  ghost predicate SpendsOnce(s: State) {
    && Distinct(s.spent)
    && (forall t :: t in s.spent ==> t in s.attempted && (s.Is(t, Fetching) || s.Is(t, Done)))
    && (forall t :: s.Is(t, Fetching) ==> t in s.spent)
  }

  ghost predicate Invariant(s: State, due: seq<Terminal>) {
    s.phases.Keys == TasksFor(due) && Bounded(s) && Counted(s) && FetchedAttempted(s) && AttemptsOnce(s) && SpendsOnce(s)
  }

  lemma SizeWithout(ts: set<Task>, t: Task)
    ensures |ts| == |ts - {t}| + (if t in ts then 1 else 0)
  {
    if t !in ts {
      assert ts - {t} == ts;
    }
  }

  lemma MoveSizes(phases: map<Task, Phase>, t: Task, to: Phase)
    requires t in phases && phases[t] != to
    ensures |Running(phases[t := to])|
         == |Running(phases)| - (if InSemaphore(phases[t]) then 1 else 0) + (if InSemaphore(to) then 1 else 0)
  {
    var phases' := phases[t := to];
    SizeWithout(Running(phases), t);
    SizeWithout(Running(phases'), t);
    assert forall u :: u in Running(phases') - {t} <==> u in Running(phases) - {t};
    assert Running(phases') - {t} == Running(phases) - {t};
  }

  lemma MoveCount(phases: map<Task, Phase>, t: Task, to: Phase, phase: Phase)
    requires t in phases && phases[t] != to
    ensures |In(phases[t := to], phase)|
         == |In(phases, phase)| - (if phases[t] == phase then 1 else 0) + (if to == phase then 1 else 0)
  {
    var phases' := phases[t := to];
    SizeWithout(In(phases, phase), t);
    SizeWithout(In(phases', phase), t);
    assert forall u :: u in In(phases', phase) - {t} <==> u in In(phases, phase) - {t};
    assert In(phases', phase) - {t} == In(phases, phase) - {t};
  }

  lemma MoveOpen(phases: map<Task, Phase>, t: Task, to: Phase)
    requires t in phases && phases[t] != to
    ensures |Open(phases[t := to])|
         == |Open(phases)| - (if InFetch(phases[t]) then 1 else 0) + (if InFetch(to) then 1 else 0)
  {
    var phases' := phases[t := to];
    SizeWithout(Open(phases), t);
    SizeWithout(Open(phases'), t);
    assert forall u :: u in Open(phases') - {t} <==> u in Open(phases) - {t};
    assert Open(phases') - {t} == Open(phases) - {t};
  }

  lemma ClearedAreRunning(phases: map<Task, Phase>)
    ensures |In(phases, Cleared)| <= |Running(phases)|
  {
    SubsetSize(In(phases, Cleared), Running(phases));
  }

  lemma {:induction false} SubsetSize(a: set<Task>, b: set<Task>)
    requires a <= b
    ensures |a| <= |b|
  {
    if t :| t in a {
      SubsetSize(a - {t}, b - {t});
    }
  }

  lemma StaysBounded(s: State, e: Event)
    requires Bounded(s) && Enabled(s, e)
    ensures Bounded(Apply(s, e))
  {
    var s' := Apply(s, e);
    if !e.PilotSpends? {
      MoveSizes(s.phases, e.task, s'.phases[e.task]);
      MoveCount(s.phases, e.task, s'.phases[e.task], Cleared);
    }
    ClearedAreRunning(s'.phases);
  }

  lemma AppendDistinct(tasks: seq<Task>, t: Task)
    requires Distinct(tasks) && t !in tasks
    ensures Distinct(tasks + [t]) && forall u :: u in tasks + [t] <==> u in tasks || u == t
  {
  }

  lemma AttemptsStayOnce(s: State, e: Event)
    requires AttemptsOnce(s) && Enabled(s, e)
    ensures AttemptsOnce(Apply(s, e))
  {
    var s' := Apply(s, e);
    if !e.PilotSpends? {
      var t := e.task;
      if s'.attempted != s.attempted {
        AppendDistinct(s.attempted, t);
      }
      forall u | u != t ensures s'.Is(u, Done) <==> s.Is(u, Done) {
      }
    }
  }

  lemma SpendsStayOnce(s: State, e: Event)
    requires AttemptsOnce(s) && SpendsOnce(s) && Enabled(s, e)
    ensures SpendsOnce(Apply(s, e))
  {
    var s' := Apply(s, e);
    if !e.PilotSpends? {
      var t := e.task;
      if s'.spent != s.spent {
        assert t in s.spent ==> s.Is(t, Fetching) || s.Is(t, Done);
        AppendDistinct(s.spent, t);
      }
      forall u | u != t ensures (s'.Is(u, Fetching) <==> s.Is(u, Fetching)) && (s'.Is(u, Done) <==> s.Is(u, Done)) {
      }
    }
  }

  lemma StaysCounted(s: State, e: Event)
    requires Counted(s) && FetchedAttempted(s) && Enabled(s, e)
    ensures Counted(Apply(s, e)) && FetchedAttempted(Apply(s, e))
  {
    if !e.PilotSpends? {
      MoveOpen(s.phases, e.task, Apply(s, e).phases[e.task]);
    }
  }

  lemma ApplyKeepsInvariant(s: State, e: Event, due: seq<Terminal>)
    requires Invariant(s, due) && Enabled(s, e)
    ensures Invariant(Apply(s, e), due)
  {
    StaysBounded(s, e);
    StaysCounted(s, e);
    AttemptsStayOnce(s, e);
    SpendsStayOnce(s, e);
  }

  // ----- Whole rounds -----

  ghost predicate Possible(s: State, events: seq<Event>)
    decreases |events|
  {
    events != [] ==> Enabled(s, events[0]) && Possible(Apply(s, events[0]), events[1..])
  }

  ghost function After(s: State, events: seq<Event>): State
    requires Possible(s, events)
    decreases |events|
  {
    if events == [] then s else After(Apply(s, events[0]), events[1..])
  }

  lemma {:induction false} InvariantHolds(s: State, events: seq<Event>, due: seq<Terminal>)
    requires Invariant(s, due) && Possible(s, events)
    ensures Invariant(After(s, events), due)
    decreases |events|
  {
    if events != [] {
      ApplyKeepsInvariant(s, events[0], due);
      InvariantHolds(Apply(s, events[0]), events[1..], due);
    }
  }

  lemma InitialIsInvariant(s: State, due: seq<Terminal>)
    requires Initial(s, due)
    ensures Invariant(s, due)
  {
    assert Running(s.phases) == {} && Open(s.phases) == {} && In(s.phases, Cleared) == {};
  }

  /**
   * Whatever pilots spend meanwhile, in any interleaving: the counter is the sum of what was accepted
   * and stays under the cap; each attempt spends at most one call; and at most five calls are spent
   * after the remaining calls have dropped to the reserve.
   */
  lemma RoundIsBounded(s: State, events: seq<Event>, due: seq<Terminal>)
    requires Initial(s, due) && Possible(s, events)
    ensures var t := After(s, events);
            && t.late <= PREFETCH_CONCURRENCY
            && t.used == t.pilotCalls + |t.spent| && (t.used > 0 ==> t.used <= t.cap)
            && Distinct(t.spent) && (forall task :: task in t.spent ==> task in t.attempted)
            && t.fetched <= |t.attempted|
  {
    InitialIsInvariant(s, due);
    InvariantHolds(s, events, due);
  }

  // ----- The terminals a round attempts -----

  /** The terminals those tasks fetch. */
  function TerminalsOf(tasks: seq<Task>, due: seq<Terminal>): seq<Terminal>
    requires forall t :: t in tasks ==> t in TasksFor(due)
  {
    if tasks == [] then []
    else
      var last := tasks[|tasks| - 1];
      assert last in tasks && last in TasksFor(due);
      TerminalsOf(tasks[..|tasks| - 1], due) + [due[last]]
  }

  function Members(tasks: seq<Task>): set<Task> {
    set t | t in tasks
  }

  function TasksOn(terminal: Terminal, tasks: set<Task>, due: seq<Terminal>): set<Task> {
    set t | t in tasks && t < |due| && due[t] == terminal
  }

  /** A terminal is listed as often as there are tasks for it. */
  lemma {:induction false} CountListed(due: seq<Terminal>, terminal: Terminal)
    ensures multiset(due)[terminal] == |TasksOn(terminal, TasksFor(due), due)|
  {
    if due != [] {
      var before, last := due[..|due| - 1], due[|due| - 1];
      CountListed(before, terminal);
      OneTerminalMore(before, last, terminal);
      assert due == before + [last];
    } else {
      assert TasksOn(terminal, TasksFor(due), due) == {};
    }
  }

  lemma OneTerminalMore(before: seq<Terminal>, last: Terminal, terminal: Terminal)
    ensures |TasksOn(terminal, TasksFor(before + [last]), before + [last])|
         == |TasksOn(terminal, TasksFor(before), before)| + (if last == terminal then 1 else 0)
  {
    var due := before + [last];
    var after, earlier := TasksOn(terminal, TasksFor(due), due), TasksOn(terminal, TasksFor(before), before);
    SizeWithout(after, |before|);
    forall t: Task ensures t in after - {|before|} <==> t in earlier {
      assert t < |before| ==> due[t] == before[t];
    }
    assert after - {|before|} == earlier;
  }

  /** And attempted as often as there are tasks for it among the attempted. */
  lemma {:induction false} CountAttempted(tasks: seq<Task>, due: seq<Terminal>, terminal: Terminal)
    requires Distinct(tasks) && forall t :: t in tasks ==> t in TasksFor(due)
    ensures multiset(TerminalsOf(tasks, due))[terminal] == |TasksOn(terminal, Members(tasks), due)|
  {
    if tasks != [] {
      var before, last := tasks[..|tasks| - 1], tasks[|tasks| - 1];
      CountAttempted(before, due, terminal);
      assert last in tasks && last in TasksFor(due);
      OneTaskMore(before, last, due, terminal);
      assert tasks == before + [last];
    } else {
      assert TasksOn(terminal, Members(tasks), due) == {};
    }
  }

  lemma OneTaskMore(before: seq<Task>, last: Task, due: seq<Terminal>, terminal: Terminal)
    requires last !in before && last < |due|
    ensures |TasksOn(terminal, Members(before + [last]), due)|
         == |TasksOn(terminal, Members(before), due)| + (if due[last] == terminal then 1 else 0)
  {
    var after := TasksOn(terminal, Members(before + [last]), due);
    SizeWithout(after, last);
    assert after - {last} == TasksOn(terminal, Members(before), due);
  }

  lemma AttemptedInTasks(s: State, events: seq<Event>, due: seq<Terminal>)
    requires Initial(s, due) && Possible(s, events)
    ensures Distinct(After(s, events).attempted)
    ensures forall t :: t in After(s, events).attempted ==> t in TasksFor(due)
  {
    InitialIsInvariant(s, due);
    InvariantHolds(s, events, due);
  }

  /** The terminals whose fetch a run of events began. */
  ghost function Attempted(s: State, events: seq<Event>, due: seq<Terminal>): seq<Terminal>
    requires Initial(s, due) && Possible(s, events)
  {
    AttemptedInTasks(s, events, due);
    TerminalsOf(After(s, events).attempted, due)
  }

  /** No terminal is attempted more often than it is due. */
  lemma AttemptedAsDue(s: State, events: seq<Event>, due: seq<Terminal>, terminal: Terminal)
    requires Initial(s, due) && Possible(s, events)
    ensures multiset(Attempted(s, events, due))[terminal] <= multiset(due)[terminal]
  {
    AttemptedInTasks(s, events, due);
    var tasks := After(s, events).attempted;
    CountListed(due, terminal);
    CountAttempted(tasks, due, terminal);
    SubsetSize(TasksOn(terminal, Members(tasks), due), TasksOn(terminal, TasksFor(due), due));
  }

  /**
   * A round over the cache's terminals attempts only due ones, and none more often than the cache
   * lists it.
   */
  lemma AttemptedAsListed(
    s: State, events: seq<Event>, terminals: seq<Terminal>, fetchedAt: map<Terminal, real>, now: real, recentEnoughS: real,
    terminal: Terminal
  )
    requires Initial(s, Due(terminals, fetchedAt, now, recentEnoughS)) && Possible(s, events)
    ensures var attempts := multiset(Attempted(s, events, Due(terminals, fetchedAt, now, recentEnoughS)))[terminal];
            attempts <= multiset(terminals)[terminal] && (attempts > 0 && terminal in fetchedAt ==> fetchedAt[terminal] + recentEnoughS <= now)
  {
    DueCounts(terminals, fetchedAt, now, recentEnoughS);
    AttemptedAsDue(s, events, Due(terminals, fetchedAt, now, recentEnoughS), terminal);
  }

  lemma TwoTasks(due: seq<Terminal>, terminal: Terminal) returns (i: Task, j: Task)
    requires multiset(due)[terminal] > 1
    ensures i < |due| && j < |due| && i != j && due[i] == terminal == due[j]
  {
    CountListed(due, terminal);
    var tasks := TasksOn(terminal, TasksFor(due), due);
    i :| i in tasks;
    SizeWithout(tasks, i);
    j :| j in tasks - {i};
  }

  /** Two tasks that enter and find more than the reserve left both attempt their terminals. */
  lemma BothAttempted(s: State, due: seq<Terminal>, i: Task, j: Task) returns (events: seq<Event>)
    requires Initial(s, due) && !s.AtReserve() && i < |due| && j < |due| && i != j
    ensures Possible(s, events) && After(s, events).attempted == [i, j]
  {
    var e0, e1, e2, e3 := Enter(i), ReadRemaining(i), Enter(j), ReadRemaining(j);
    assert Running(s.phases) == {};
    var s1 := Apply(s, e0);
    var s2 := Apply(s1, e1);
    assert Running(s2.phases) == {i};
    var s3 := Apply(s2, e2);
    var s4 := Apply(s3, e3);
    events := [e0] + ([e1] + ([e2] + ([e3] + [])));
    Prepended(s3, e3, []);
    Prepended(s2, e2, [e3] + []);
    Prepended(s1, e1, [e2] + ([e3] + []));
    Prepended(s, e0, [e1] + ([e2] + ([e3] + [])));
  }

  lemma Prepended(s: State, e: Event, events: seq<Event>)
    requires Enabled(s, e) && Possible(Apply(s, e), events)
    ensures Possible(s, [e] + events) && After(s, [e] + events) == After(Apply(s, e), events)
  {
    assert ([e] + events)[1..] == events;
  }

  /** With the remaining calls down to the reserve, which they never rise above again, no fetch begins. */
  lemma {:induction false} NothingAtReserve(s: State, events: seq<Event>)
    requires s.AtReserve() && Possible(s, events)
    ensures After(s, events).attempted == s.attempted
    decreases |events|
  {
    if events != [] {
      NothingAtReserve(Apply(s, events[0]), events[1..]);
    }
  }

  /**
   * A terminal is attempted at most once in every run if and only if it is due no more than once, or
   * the round starts with no more calls remaining than the reserve.
   */
  lemma AttemptedOnceIffListedOnce(s: State, due: seq<Terminal>, terminal: Terminal)
    requires Initial(s, due)
    ensures (forall events :: Possible(s, events) ==> multiset(Attempted(s, events, due))[terminal] <= 1)
        <==> multiset(due)[terminal] <= 1 || s.AtReserve()
  {
    if multiset(due)[terminal] <= 1 || s.AtReserve() {
      forall events | Possible(s, events) ensures multiset(Attempted(s, events, due))[terminal] <= 1 {
        if s.AtReserve() {
          NothingAtReserve(s, events);
        } else {
          AttemptedAsDue(s, events, due, terminal);
        }
      }
    } else {
      var i, j := TwoTasks(due, terminal);
      var events := BothAttempted(s, due, i, j);
      assert [i, j][..1] == [i] && [i][..0] == [];
      assert TerminalsOf([i], due) == TerminalsOf([i][..0], due) + [due[i]];
      assert Attempted(s, events, due) == [terminal, terminal];
    }
  }

  /** A round that ran to its end either stopped or attempted every due terminal, each as often as it is due. */
  lemma FinishedRound(s: State, events: seq<Event>, due: seq<Terminal>)
    requires Initial(s, due) && Possible(s, events)
    requires forall t :: t in TasksFor(due) ==> After(s, events).Is(t, Done)
    ensures After(s, events).stopped || multiset(Attempted(s, events, due)) == multiset(due)
  {
    InitialIsInvariant(s, due);
    InvariantHolds(s, events, due);
    AttemptedInTasks(s, events, due);
    var tasks := After(s, events).attempted;
    if !After(s, events).stopped {
      assert Members(tasks) == TasksFor(due);
      forall terminal ensures multiset(Attempted(s, events, due))[terminal] == multiset(due)[terminal] {
        CountListed(due, terminal);
        CountAttempted(tasks, due, terminal);
      }
    }
  }
}
