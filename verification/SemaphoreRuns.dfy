/** What the semaphores of kernel/semaphore.c do over whole runs, told by the events of the run alone. */
module SemaphoreRuns {
  import opened Basics
  import opened Sched
  import opened SchedProofs

  // ---------------------------------------------------------------- read off the run

  /** The P operations on semaphore `i`. */
  function PCount(run: seq<Event>, i: nat): nat {
    if run == [] then 0
    else (if run[0].SemP? && run[0].id == i then 1 else 0) + PCount(run[1..], i)
  }

  /** The V operations on semaphore `i`. */
  function VCount(run: seq<Event>, i: nat): nat {
    if run == [] then 0
    else (if run[0].SemV? && run[0].id == i then 1 else 0) + VCount(run[1..], i)
  }

  /** The initial values of the semaphores, in the order of their creation. */
  function Initials(run: seq<Event>): seq<int> {
    if run == [] then []
    else (if run[0].SemNew? then [run[0].initial] else []) + Initials(run[1..])
  }

  /** The process that an event sends to sleep on semaphore `i`. */
  function Sleeper(s: State, e: Event, i: nat): seq<nat>
    requires Enabled(s, e)
  {
    if e.SemP? && e.id == i && StatusOf(Step(s, e), s.current[e.hart]) == BLOCKED then [s.current[e.hart]] else []
  }

  /** The process that an event on semaphore `i` adds to the ready queue of its hart. */
  function Riser(s: State, e: Event, i: nat): seq<nat>
    requires Enabled(s, e)
  {
    if e.SemV? && e.id == i then
      var before, after := Queue(s, Ready(e.hart)), Queue(Step(s, e), Ready(e.hart));
      if |before| <= |after| then after[|before|..] else []
    else []
  }

  /** The processes that went to sleep on semaphore `i`, in order. */
  function Sleepers(s: State, run: seq<Event>, i: nat): seq<nat>
    requires Exec(s, run).Some?
    decreases |run|
  {
    if run == [] then [] else Sleeper(s, run[0], i) + Sleepers(Step(s, run[0]), run[1..], i)
  }

  /** The processes that V operations on semaphore `i` made ready, in order. */
  function Risers(s: State, run: seq<Event>, i: nat): seq<nat>
    requires Exec(s, run).Some?
    decreases |run|
  {
    if run == [] then [] else Riser(s, run[0], i) + Risers(Step(s, run[0]), run[1..], i)
  }

  // ---------------------------------------------------------------- one step

  function Max(a: int, b: int): int { if a < b then b else a }

  function Min(a: int, b: int): int { if a < b then a else b }

  /** The queue of semaphore `i`, started at `initial`, holds the processes its value calls for. */
  ghost predicate Balanced(s: State, i: nat, initial: int)
    requires i < |s.sems|
  {
    && |Queue(s, Sem(i))| == Max(0, Min(initial, 0) - s.sems[i])
    && (initial < 0 ==> s.sems[i] <= initial)
  }

  function Change(e: Event, i: nat): int {
    if e.SemP? && e.id == i then -1 else if e.SemV? && e.id == i then 1 else 0
  }

  /** What one event does to the semaphore that exists already. */
  ghost predicate Accounts(s: State, e: Event, i: nat, initial: int)
    requires Enabled(s, e) && i < |s.sems|
  {
    var s' := Step(s, e);
    && i < |s'.sems|
    && s'.sems[i] == s.sems[i] + Change(e, i)
    && Queue(s, Sem(i)) + Sleeper(s, e, i) == Riser(s, e, i) + Queue(s', Sem(i))
    && (Balanced(s, i, initial) ==> Balanced(s', i, initial))
  }

  /** A P that blocks the caller leaves it BLOCKED at the tail of the semaphore's queue. */
  lemma PAccounts(s: State, h: nat, i: nat, initial: int)
    requires Inv(s) && Enabled(s, SemP(h, i))
    ensures Accounts(s, SemP(h, i), i, initial)
  {
    hide Schedule, PlacesOk, TicksOk;
    var s1, p := s.(sems := s.sems[i := s.sems[i] - 1]), s.current[h];
    RunningIsApart(s, h);
    if s1.sems[i] < 0 {
      ParkSameSems(s1, h, Sem(i), BLOCKED);
      ScheduleKeepsStatus(Enqueue(SetStatus(s1, p, BLOCKED), Sem(i), p), h, p);
    }
  }

  lemma RunningIsApart(s: State, h: nat)
    requires PlacesOk(s) && h in s.current
    ensures StatusOf(s, s.current[h]) == RUNNING && s.current[h] !in Queue(s, Ready(h))
  {
    assert !OnQueue(s, s.current[h], Ready(h));
  }

  /** schedule changes the status of the head of the ready queue only. */
  lemma ScheduleKeepsStatus(s: State, h: nat, p: nat)
    requires p !in Queue(s, Ready(h))
    ensures StatusOf(Schedule(s, h), p) == StatusOf(s, p)
  {
  }

  /** A V that does not panic wakes the head of the semaphore's queue, or nobody. */
  lemma VAccounts(s: State, h: nat, i: nat, initial: int)
    requires Inv(s) && Enabled(s, SemV(h, i))
    ensures Accounts(s, SemV(h, i), i, initial)
  {
    hide PlacesOk, TicksOk;
    var s', q, r := Step(s, SemV(h, i)), Queue(s, Sem(i)), Queue(s, Ready(h));
    if s.sems[i] + 1 > 0 {
      assert Riser(s, SemV(h, i), i) == [];
    } else {
      assert Queue(s', Ready(h)) == r + [q[0]];
      assert Riser(s, SemV(h, i), i) == [q[0]];
      assert q == [q[0]] + q[1..];
    }
  }

  /** An event on another semaphore, or on none. */
  lemma OtherAccounts(s: State, e: Event, i: nat, initial: int)
    requires Inv(s) && Enabled(s, e) && i < |s.sems| && !(e.SemP? && e.id == i) && !(e.SemV? && e.id == i)
    ensures Accounts(s, e, i, initial)
  {
    hide PlacesOk, TicksOk;
    assert Sem(i) in s.queues;
    QueueUntouched(s, e, i);
  }

  lemma QueueUntouched(s: State, e: Event, i: nat)
    requires SemsOk(s) && TicksOk(s) && Enabled(s, e) && i < |s.sems| && !(e.SemP? && e.id == i)
        && !(e.SemV? && e.id == i)
    ensures var s' := Step(s, e);
            i < |s'.sems| && s'.sems[i] == s.sems[i] && Queue(s', Sem(i)) == Queue(s, Sem(i))
  {
    hide Schedule, Park, ExitStep, PStep, TickStep;
    match e
    case Load(_, _) =>
    case Dispatch(h) => ScheduleSameSems(s, h);
    case Yield(h) => ParkSameSems(s, h, Ready(h), READY);
    case Tick(h) => TickSameSems(s, h);
    case Fork(_, _, _) =>
    case Wait(h) => ParkSameSems(s, h, Waiting(h), BLOCKED);
    case Reap(_, _) =>
    case Exit(h) => ExitSameSems(s, h);
    case SemNew(_) =>
    case SemP(h, j) => OtherP(s, h, j, i);
    case SemV(_, _) =>
  }

  lemma OtherP(s: State, h: nat, j: nat, i: nat)
    requires SemsOk(s) && h in s.current && j < |s.sems| && i < |s.sems| && i != j
    ensures var s' := PStep(s, h, j);
            i < |s'.sems| && s'.sems[i] == s.sems[i] && Queue(s', Sem(i)) == Queue(s, Sem(i))
  {
    hide Schedule, Park;
    if s.sems[j] - 1 < 0 {
      ParkSameSems(s.(sems := s.sems[j := s.sems[j] - 1]), h, Sem(j), BLOCKED);
    }
  }

  lemma StepAccounts(s: State, e: Event, i: nat, initial: int)
    requires Inv(s) && Enabled(s, e) && i < |s.sems|
    ensures Accounts(s, e, i, initial)
  {
    hide Inv, Accounts;
    if e.SemP? && e.id == i {
      PAccounts(s, e.hart, i, initial);
    } else if e.SemV? && e.id == i {
      VAccounts(s, e.hart, i, initial);
    } else {
      OtherAccounts(s, e, i, initial);
    }
  }

  // ---------------------------------------------------------------- whole runs

  /** A semaphore that exists at the start of the run, where it was started at `initial`. */
  lemma {:induction false} OldSemaphore(s: State, run: seq<Event>, i: nat, initial: int)
    requires Inv(s) && Exec(s, run).Some? && i < |s.sems|
    ensures var t := Exec(s, run).value;
            && i < |t.sems|
            && t.sems[i] == s.sems[i] - PCount(run, i) + VCount(run, i)
            && Queue(s, Sem(i)) + Sleepers(s, run, i) == Risers(s, run, i) + Queue(t, Sem(i))
            && (Balanced(s, i, initial) ==> Balanced(t, i, initial))
    decreases |run|
  {
    hide Inv, Step, Enabled, Balanced, Sleeper, Riser;
    if run != [] {
      var e, s' := run[0], Step(s, run[0]);
      StepKeepsInv(s, e);
      StepAccounts(s, e, i, initial);
      OldSemaphore(s', run[1..], i, initial);
      assert PCount(run, i) - VCount(run, i) == PCount(run[1..], i) - VCount(run[1..], i) - Change(e, i);
      var t := Exec(s, run).value;
      calc {
        Queue(s, Sem(i)) + Sleepers(s, run, i);
        (Queue(s, Sem(i)) + Sleeper(s, e, i)) + Sleepers(s', run[1..], i);
        (Riser(s, e, i) + Queue(s', Sem(i))) + Sleepers(s', run[1..], i);
        Riser(s, e, i) + (Queue(s', Sem(i)) + Sleepers(s', run[1..], i));
        Riser(s, e, i) + (Risers(s', run[1..], i) + Queue(t, Sem(i)));
        Risers(s, run, i) + Queue(t, Sem(i));
      }
    }
  }

  /** Only SemNew changes the number of semaphores. */
  lemma StepCounts(s: State, e: Event)
    requires Inv(s) && Enabled(s, e)
    ensures |Step(s, e).sems| == |s.sems| + if e.SemNew? then 1 else 0
  {
    hide PlacesOk, SemsOk, Schedule, Park, ExitStep, PStep, TickStep;
    match e
    case Load(_, _) =>
    case Dispatch(h) => ScheduleSameSems(s, h);
    case Yield(h) => ParkSameSems(s, h, Ready(h), READY);
    case Tick(h) => TickSameSems(s, h);
    case Fork(_, _, _) =>
    case Wait(h) => ParkSameSems(s, h, Waiting(h), BLOCKED);
    case Reap(_, _) =>
    case Exit(h) => ExitSameSems(s, h);
    case SemNew(_) =>
    case SemP(h, i) => PCounts(s, h, i);
    case SemV(_, _) =>
  }

  lemma PCounts(s: State, h: nat, i: nat)
    requires h in s.current && i < |s.sems|
    ensures |PStep(s, h, i).sems| == |s.sems|
  {
    hide Schedule, Park;
    ParkSameSems(s.(sems := s.sems[i := s.sems[i] - 1]), h, Sem(i), BLOCKED);
  }

  /** An event creates at most one semaphore, and none of its effects is on one not there before. */
  lemma StepCreates(s: State, e: Event, i: nat)
    requires Inv(s) && Enabled(s, e) && i >= |s.sems|
    ensures var s' := Step(s, e);
            && |s'.sems| == |s.sems| + (if e.SemNew? then 1 else 0)
            && Change(e, i) == 0 && Sleeper(s, e, i) == [] && Riser(s, e, i) == []
            && (e.SemNew? && i == |s.sems| ==>
                  s'.sems[i] == e.initial && Queue(s', Sem(i)) == [] && Balanced(s', i, e.initial))
  {
    hide Inv, Schedule, Park, ExitStep, PStep, VStep, TickStep;
    StepCounts(s, e);
  }

  /** The semaphores after a run are the ones before it and the ones it created. */
  lemma {:induction false} CreatedIn(s: State, run: seq<Event>)
    requires Inv(s) && Exec(s, run).Some?
    ensures |Exec(s, run).value.sems| == |s.sems| + |Initials(run)|
    decreases |run|
  {
    hide Inv, Step, Enabled;
    if run != [] {
      StepKeepsInv(s, run[0]);
      StepCreates(s, run[0], |s.sems|);
      CreatedIn(Step(s, run[0]), run[1..]);
    }
  }

  /** What a run makes of a semaphore that it creates. */
  ghost predicate Settles(s: State, run: seq<Event>, i: nat, initial: int)
    requires Exec(s, run).Some?
  {
    var t := Exec(s, run).value;
    && i < |t.sems|
    && t.sems[i] == initial - PCount(run, i) + VCount(run, i)
    && Sleepers(s, run, i) == Risers(s, run, i) + Queue(t, Sem(i))
    && Balanced(t, i, initial)
  }

  /** An event with no effect on the semaphore may come first. */
  lemma SettlesLater(s: State, run: seq<Event>, i: nat, initial: int)
    requires run != [] && Exec(s, run).Some? && Change(run[0], i) == 0
    requires Sleeper(s, run[0], i) == [] && Riser(s, run[0], i) == []
    requires Settles(Step(s, run[0]), run[1..], i, initial)
    ensures Settles(s, run, i, initial)
  {
    hide Step, Enabled, Balanced, Sleeper, Riser, Queue;
    assert [] + Sleepers(Step(s, run[0]), run[1..], i) == Sleepers(Step(s, run[0]), run[1..], i);
    assert [] + Risers(Step(s, run[0]), run[1..], i) == Risers(Step(s, run[0]), run[1..], i);
  }

  /** A semaphore created during the run. */
  lemma {:induction false} NewSemaphore(s: State, run: seq<Event>, i: nat)
    requires Inv(s) && Exec(s, run).Some? && |s.sems| <= i < |s.sems| + |Initials(run)|
    ensures Settles(s, run, i, Initials(run)[i - |s.sems|])
    decreases |run|
  {
    hide Inv, Step, Enabled, Balanced, Sleeper, Riser, Change, Settles;
    var e, s' := run[0], Step(s, run[0]);
    StepKeepsInv(s, e);
    StepCreates(s, e, i);
    if i < |s'.sems| {
      StartsSettled(s', run[1..], i, e.initial);
    } else {
      NewSemaphore(s', run[1..], i);
    }
    SettlesLater(s, run, i, Initials(run)[i - |s.sems|]);
  }

  lemma StartsSettled(s: State, run: seq<Event>, i: nat, initial: int)
    requires Inv(s) && Exec(s, run).Some? && i < |s.sems|
    requires s.sems[i] == initial && Queue(s, Sem(i)) == [] && Balanced(s, i, initial)
    ensures Settles(s, run, i, initial)
  {
    hide Inv, Balanced, Exec, Sleepers, Risers;
    OldSemaphore(s, run, i, initial);
    assert [] + Sleepers(s, run, i) == Sleepers(s, run, i);
  }

  /** In every state of every run from kernel start, semaphore `i` has the value its initial value and
      the P and V operations of the run give it; its queue holds the processes that went to sleep on
      it and were not woken, woken in the order they went to sleep; and the processes asleep are as
      many as the P operations that the initial value and the V operations have not let through. A V
      panics exactly for a negative initial value that as many Ps as Vs have followed. */
  lemma SemaphoreTheorem(s: State, run: seq<Event>, i: nat, h: nat)
    requires Boot(s) && Exec(s, run).Some? && i < |Exec(s, run).value.sems|
    ensures |Initials(run)| == |Exec(s, run).value.sems|
    ensures var t, initial, p, v := Exec(s, run).value, Initials(run)[i], PCount(run, i), VCount(run, i);
            && t.sems[i] == initial - p + v
            && Sleepers(s, run, i) == Risers(s, run, i) + Queue(t, Sem(i))
            && p - |Queue(t, Sem(i))| == Min(p, Max(initial, 0) + v)
            && (VStep(t, h, i).None? <==> initial < 0 && p == v)
  {
    hide Inv, Exec, PCount, VCount, Initials, Sleepers, Risers;
    BootIsInv(s);
    CreatedIn(s, run);
    NewSemaphore(s, run, i);
  }

  /** A run after which a V panics: a process starts and makes a semaphore below zero. */
  lemma PanicRun(s: State)
    requires Boot(s) && s.harts > 0
    ensures var t := Exec(s, [Load(0, 0), Dispatch(0), SemNew(-1)]);
            t.Some? && 0 in t.value.current && |t.value.sems| == 1 && VStep(t.value, 0, 0) == None
  {
    var run := [Load(0, 0), Dispatch(0), SemNew(-1)];
    var s1 := Step(s, run[0]);
    assert Queue(s1, Ready(0)) == [0];
    var s2 := Step(s1, run[1]);
    var s3 := Step(s2, run[2]);
    assert run[1..] == [Dispatch(0), SemNew(-1)] && run[1..][1..] == [SemNew(-1)] && run[1..][1..][1..] == [];
    assert Exec(s3, []) == Some(s3);
    assert Exec(s2, [SemNew(-1)]) == Some(s3);
    assert Exec(s1, run[1..]) == Some(s3);
  }
}
