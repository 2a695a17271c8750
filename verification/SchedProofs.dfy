/** Every kernel entry keeps every process in exactly one place. */
module SchedProofs {
  import opened Basics
  import opened Sched

  // The steps move one process at a time; in between it is nowhere, like a FREE one.

  ghost predicate Nowhere(s: State, p: nat) {
    StatusOf(s, p) == FREE || StatusOf(s, p) == ZOMBIE
  }

  /** Taking the current process off its hart. */
  function Lift(s: State, h: nat): State
    requires h in s.current
  {
    s.(current := s.current - {h}, status := s.status[s.current[h] := FREE])
  }

  /** Putting a process on a queue. */
  function Put(s: State, q: QueueId, p: nat): State {
    Enqueue(SetStatus(s, p, QueueStatus(q)), q, p)
  }

  /** Taking the process at position `i` off a queue. */
  function Take(s: State, q: QueueId, i: nat): State
    requires i < |Queue(s, q)|
  {
    s.(queues := s.queues[q := Without(Queue(s, q), i)], status := s.status[Queue(s, q)[i] := FREE])
  }

  /** Running a process on an idle hart. */
  function Start(s: State, h: nat, p: nat): State {
    SetStatus(s, p, RUNNING).(current := s.current[h := p])
  }

  lemma LiftKeepsPlaces(s: State, h: nat)
    requires PlacesOk(s) && h in s.current
    ensures PlacesOk(Lift(s, h)) && Nowhere(Lift(s, h), s.current[h])
  {
    var s', x := Lift(s, h), s.current[h];
    forall p, q | OnQueue(s', p, q)
      ensures StatusOf(s', p) == QueueStatus(q)
    {
      assert OnQueue(s, p, q);
    }
    forall p, q, q' | OnQueue(s', p, q) && OnQueue(s', p, q')
      ensures q == q'
    {
      assert OnQueue(s, p, q) && OnQueue(s, p, q');
    }
    forall p | StatusOf(s', p) == READY || StatusOf(s', p) == BLOCKED
      ensures exists q :: OnQueue(s', p, q)
    {
      assert StatusOf(s, p) == StatusOf(s', p);
      var q :| OnQueue(s, p, q);
      assert OnQueue(s', p, q);
    }
    forall p | StatusOf(s', p) == RUNNING
      ensures exists k :: k in s'.current && s'.current[k] == p
    {
      assert StatusOf(s, p) == RUNNING;
      var k :| k in s.current && s.current[k] == p;
      assert k in s'.current;
    }
  }

  /** After a process is put on a queue, it is on that queue only, and the others are where they were. */
  lemma PutMembers(s: State, q: QueueId, x: nat, p: nat, k: QueueId)
    requires PlacesOk(s) && Nowhere(s, x)
    ensures OnQueue(Put(s, q, x), p, k) <==> if p == x then k == q else OnQueue(s, p, k)
  {
    assert OnQueue(s, x, k) ==> StatusOf(s, x) == QueueStatus(k);
    assert Queue(Put(s, q, x), q) == Queue(s, q) + [x];
    assert k == q && p == x ==> p in Queue(s, q) + [x];
  }

  lemma PutKeepsPlaces(s: State, q: QueueId, x: nat)
    requires PlacesOk(s) && Nowhere(s, x)
    ensures PlacesOk(Put(s, q, x))
  {
    var s' := Put(s, q, x);
    forall p, k
      ensures OnQueue(s', p, k) <==> if p == x then k == q else OnQueue(s, p, k)
    {
      PutMembers(s, q, x, p, k);
    }
    assert forall k :: k in s.current ==> s.current[k] != x;
    assert !OnQueue(s, x, q);
    forall p | StatusOf(s', p) == READY || StatusOf(s', p) == BLOCKED
      ensures exists k :: OnQueue(s', p, k)
    {
      assert p == x ==> OnQueue(s', x, q);
      assert p != x ==> StatusOf(s, p) == StatusOf(s', p);
    }
    forall p | StatusOf(s', p) == RUNNING
      ensures exists k :: k in s'.current && s'.current[k] == p
    {
      assert StatusOf(s, p) == RUNNING;
    }
  }

  lemma TakeKeepsPlaces(s: State, q: QueueId, i: nat)
    requires PlacesOk(s) && q in s.queues && i < |s.queues[q]|
    ensures PlacesOk(Take(s, q, i)) && Nowhere(Take(s, q, i), s.queues[q][i])
  {
    var s', x, line := Take(s, q, i), s.queues[q][i], s.queues[q];
    var rest := Without(line, i);
    assert OnQueue(s, x, q);
    assert forall j :: 0 <= j < |rest| ==> rest[j] == line[if j < i then j else j + 1];
    assert x !in rest;
    forall p, k | OnQueue(s', p, k)
      ensures OnQueue(s, p, k) && p != x
    {
      assert OnQueue(s, p, k);
    }
    forall p | StatusOf(s', p) == READY || StatusOf(s', p) == BLOCKED
      ensures exists k :: OnQueue(s', p, k)
    {
      assert p != x && StatusOf(s, p) == StatusOf(s', p);
      var k :| OnQueue(s, p, k);
      if k == q {
        var j :| 0 <= j < |line| && line[j] == p;
        assert rest[if j < i then j else j - 1] == p;
      }
      assert OnQueue(s', p, k);
    }
    forall p | StatusOf(s', p) == RUNNING
      ensures exists k :: k in s'.current && s'.current[k] == p
    {
      assert StatusOf(s, p) == RUNNING;
    }
  }

  lemma StartKeepsPlaces(s: State, h: nat, x: nat)
    requires PlacesOk(s) && Nowhere(s, x) && h < s.harts && h !in s.current
    ensures PlacesOk(Start(s, h, x))
  {
    var s' := Start(s, h, x);
    forall p, k | OnQueue(s', p, k)
      ensures OnQueue(s, p, k) && p != x
    {
      assert OnQueue(s, p, k);
    }
    forall p | StatusOf(s', p) == READY || StatusOf(s', p) == BLOCKED
      ensures exists k :: OnQueue(s', p, k)
    {
      assert StatusOf(s, p) == StatusOf(s', p);
      var k :| OnQueue(s, p, k);
      assert OnQueue(s', p, k);
    }
    forall p | StatusOf(s', p) == RUNNING
      ensures exists k :: k in s'.current && s'.current[k] == p
    {
      if p == x {
        assert h in s'.current;
      } else {
        assert StatusOf(s, p) == RUNNING;
        var k :| k in s.current && s.current[k] == p;
        assert k in s'.current;
      }
    }
  }

  // ---------------------------------------------------------------- the steps, one process at a time

  /** schedule on an idle hart. */
  lemma ScheduleKeepsPlaces(s: State, h: nat)
    requires PlacesOk(s) && h < s.harts && h !in s.current
    ensures PlacesOk(Schedule(s, h))
  {
    hide PlacesOk;
    var q := Queue(s, Ready(h));
    if q == [] {
      assert s.current - {h} == s.current;
    } else {
      TakeKeepsPlaces(s, Ready(h), 0);
      var s1 := Take(s, Ready(h), 0);
      StartKeepsPlaces(s1, h, q[0]);
      assert Without(q, 0) == q[1..];
      assert Start(s1, h, q[0]).status == Schedule(s, h).status;
    }
  }

  /** Scheduling forgets which process the hart ran before. */
  lemma ScheduleForgets(s: State, h: nat)
    ensures Schedule(s, h) == Schedule(s.(current := s.current - {h}), h)
  {
    var q := Queue(s, Ready(h));
    var s' := s.(current := s.current - {h});
    assert Queue(s', Ready(h)) == q;
    if q == [] {
      assert s.current - {h} - {h} == s.current - {h};
    } else {
      assert (s.current - {h})[h := q[0]] == s.current[h := q[0]];
    }
  }

  lemma ParkKeepsPlaces(s: State, h: nat, q: QueueId)
    requires PlacesOk(s) && h in s.current
    ensures PlacesOk(Park(s, h, q, QueueStatus(q)))
  {
    assert h < s.harts;
    hide PlacesOk, Schedule;
    var p := s.current[h];
    LiftKeepsPlaces(s, h);
    PutKeepsPlaces(Lift(s, h), q, p);
    var parked := Put(Lift(s, h), q, p);
    ScheduleKeepsPlaces(parked, h);
    var direct := Enqueue(SetStatus(s, p, QueueStatus(q)), q, p);
    ScheduleForgets(direct, h);
    assert parked.status == direct.status;
    assert parked == direct.(current := direct.current - {h});
  }

  lemma {:induction false} WaitHartFinds(s: State, w: nat, h: nat)
    ensures WaitHart(s, w, h).Some? ==>
        WaitHart(s, w, h).value < s.harts && w in Queue(s, Waiting(WaitHart(s, w, h).value))
    ensures WaitHart(s, w, h).None? ==> forall k :: h <= k < s.harts ==> w !in Queue(s, Waiting(k))
    decreases s.harts - h
  {
    if h < s.harts && w !in Queue(s, Waiting(h)) {
      WaitHartFinds(s, w, h + 1);
    }
  }

  lemma {:induction false} DropRemoves(q: seq<nat>, p: nat) returns (i: nat)
    requires p in q
    ensures i < |q| && q[i] == p && Drop(q, p) == Without(q, i)
  {
    if q[0] == p {
      i := 0;
    } else {
      assert q == [q[0]] + q[1..];
      var j := DropRemoves(q[1..], p);
      i := j + 1;
      assert Without(q, i) == [q[0]] + Without(q[1..], j);
    }
  }

  lemma WakeParentKeepsPlaces(s: State, p: nat)
    requires PlacesOk(s)
    ensures PlacesOk(WakeParent(s, p)) && WakeParent(s, p).current == s.current && WakeParent(s, p).harts == s.harts
  {
    hide PlacesOk;
    if p in s.parent && WaitHart(s, s.parent[p], 0).Some? {
      var w := s.parent[p];
      WaitHartFinds(s, w, 0);
      var k := WaitHart(s, w, 0).value;
      var q := Queue(s, Waiting(k));
      var i := DropRemoves(q, w);
      TakeKeepsPlaces(s, Waiting(k), i);
      var s1 := Take(s, Waiting(k), i);
      PutKeepsPlaces(s1, Ready(k), w);
      var s2 := Put(s1, Ready(k), w);
      assert s2.status == WakeParent(s, p).status;
      assert s2 == WakeParent(s, p);
    }
  }

  /** A zombie off its hart is nowhere. */
  lemma RetireKeepsPlaces(s: State, h: nat)
    requires PlacesOk(s) && h in s.current
    ensures PlacesOk(SetStatus(s, s.current[h], ZOMBIE).(current := s.current - {h}))
  {
    LiftKeepsPlaces(s, h);
    var s1, s' := Lift(s, h), SetStatus(s, s.current[h], ZOMBIE).(current := s.current - {h});
    SameButNowhere(s1, s', s.current[h]);
  }

  /** FREE and ZOMBIE make no difference to the places. */
  lemma SameButNowhere(s: State, s': State, x: nat)
    requires PlacesOk(s) && Nowhere(s, x) && Nowhere(s', x)
    requires s'.queues == s.queues && s'.current == s.current && s'.harts == s.harts
    requires forall p :: p != x ==> StatusOf(s', p) == StatusOf(s, p)
    ensures PlacesOk(s')
  {
    forall p, q ensures OnQueue(s', p, q) <==> OnQueue(s, p, q) {}
    forall p | StatusOf(s', p) == READY || StatusOf(s', p) == BLOCKED
      ensures exists q :: OnQueue(s', p, q)
    {
      assert StatusOf(s, p) == StatusOf(s', p);
      var q :| OnQueue(s, p, q);
      assert OnQueue(s', p, q);
    }
    forall p | StatusOf(s', p) == RUNNING
      ensures exists k :: k in s'.current && s'.current[k] == p
    {
      assert StatusOf(s, p) == RUNNING;
    }
  }

  lemma ExitKeepsPlaces(s: State, h: nat)
    requires PlacesOk(s) && h in s.current
    ensures PlacesOk(ExitStep(s, h))
  {
    assert h < s.harts;
    hide PlacesOk, Schedule;
    var p := s.current[h];
    RetireKeepsPlaces(s, h);
    var z := SetStatus(s, p, ZOMBIE);
    var off := z.(current := s.current - {h});
    WakeParentKeepsPlaces(off, p);
    ScheduleKeepsPlaces(WakeParent(off, p), h);
    ScheduleForgets(WakeParent(z, p), h);
    WaitHartIgnoresCurrent(z, s.current - {h}, p);
  }

  lemma WaitHartIgnoresCurrent(s: State, current: map<nat, nat>, p: nat)
    ensures WakeParent(s.(current := current), p) == WakeParent(s, p).(current := current)
  {
    if p in s.parent {
      SameWaitHart(s, current, s.parent[p], 0);
    }
  }

  lemma {:induction false} SameWaitHart(s: State, current: map<nat, nat>, w: nat, h: nat)
    ensures WaitHart(s.(current := current), w, h) == WaitHart(s, w, h)
    decreases s.harts - h
  {
    if h < s.harts && w !in Queue(s, Waiting(h)) {
      SameWaitHart(s, current, w, h + 1);
    }
  }

  /** Places do not depend on semaphore values, ticks or parents. */
  lemma SamePlaces(s: State, s': State)
    requires PlacesOk(s)
    requires s'.queues == s.queues && s'.current == s.current && s'.harts == s.harts && s'.status == s.status
    ensures PlacesOk(s')
  {
    forall p, q ensures OnQueue(s', p, q) <==> OnQueue(s, p, q) {}
    forall p ensures StatusOf(s', p) == StatusOf(s, p) {}
    forall p | StatusOf(s', p) == READY || StatusOf(s', p) == BLOCKED
      ensures exists q :: OnQueue(s', p, q)
    {
      var q :| OnQueue(s, p, q);
      assert OnQueue(s', p, q);
    }
  }

  lemma NewQueueKeepsPlaces(s: State, q: QueueId)
    requires PlacesOk(s) && q !in s.queues
    ensures PlacesOk(s.(queues := s.queues[q := []]))
  {
    var s' := s.(queues := s.queues[q := []]);
    forall p, k ensures OnQueue(s', p, k) <==> OnQueue(s, p, k) {}
    forall p ensures StatusOf(s', p) == StatusOf(s, p) {}
    forall p | StatusOf(s', p) == READY || StatusOf(s', p) == BLOCKED
      ensures exists k :: OnQueue(s', p, k)
    {
      var k :| OnQueue(s, p, k);
      assert OnQueue(s', p, k);
    }
  }

  lemma PKeepsPlaces(s: State, h: nat, i: nat)
    requires PlacesOk(s) && h in s.current && i < |s.sems|
    ensures PlacesOk(PStep(s, h, i))
  {
    hide PlacesOk, Park;
    var s1 := s.(sems := s.sems[i := s.sems[i] - 1]);
    SamePlaces(s, s1);
    if s1.sems[i] < 0 {
      ParkKeepsPlaces(s1, h, Sem(i));
    }
  }

  lemma VKeepsPlaces(s: State, h: nat, i: nat)
    requires PlacesOk(s) && i < |s.sems| && VStep(s, h, i).Some?
    ensures PlacesOk(VStep(s, h, i).value)
  {
    hide PlacesOk;
    var s' := VStep(s, h, i).value;
    if s.sems[i] + 1 > 0 {
      SamePlaces(s, s');
    } else {
      var q := Queue(s, Sem(i));
      TakeKeepsPlaces(s, Sem(i), 0);
      var s1 := Take(s, Sem(i), 0);
      assert Without(q, 0) == q[1..];
      PutKeepsPlaces(s1, Ready(h), q[0]);
      var s2 := Put(s1, Ready(h), q[0]);
      assert s2.status == s'.status;
      SamePlaces(s2, s');
    }
  }

  lemma ForkKeepsPlaces(s: State, h: nat, c: nat, target: nat)
    requires PlacesOk(s) && Enabled(s, Fork(h, c, target))
    ensures PlacesOk(Step(s, Fork(h, c, target)))
  {
    hide PlacesOk;
    var s1 := s.(parent := s.parent[c := s.current[h]]);
    SamePlaces(s, s1);
    PutKeepsPlaces(s1, Ready(target), c);
  }

  lemma LoadKeepsPlaces(s: State, c: nat, target: nat)
    requires PlacesOk(s) && Enabled(s, Load(c, target))
    ensures PlacesOk(Step(s, Load(c, target)))
  {
    hide PlacesOk;
    var s1 := s.(parent := s.parent - {c});
    SamePlaces(s, s1);
    PutKeepsPlaces(s1, Ready(target), c);
  }

  lemma TickKeepsPlaces(s: State, h: nat)
    requires PlacesOk(s) && h in s.current
    ensures PlacesOk(TickStep(s, h))
  {
    hide PlacesOk, Park;
    var p := s.current[h];
    if TicksOf(s, p) + 1 >= TIME_SLICE_LEN {
      SamePlaces(s, s.(ticks := s.ticks[p := 0]));
      ParkKeepsPlaces(s.(ticks := s.ticks[p := 0]), h, Ready(h));
    } else {
      SamePlaces(s, TickStep(s, h));
    }
  }

  /** Every kernel entry keeps every process in exactly one place. */
  lemma StepKeepsPlaces(s: State, e: Event)
    requires PlacesOk(s) && Enabled(s, e) && (forall q :: q in s.queues && q.Sem? ==> q.id < |s.sems|)
    ensures PlacesOk(Step(s, e))
  {
    hide PlacesOk, Schedule, Park, ExitStep, PStep, VStep, TickStep;
    match e
    case Load(c, target) => LoadKeepsPlaces(s, c, target);
    case Dispatch(h) => ScheduleKeepsPlaces(s, h);
    case Yield(h) => ParkKeepsPlaces(s, h, Ready(h));
    case Tick(h) => TickKeepsPlaces(s, h);
    case Fork(h, c, target) => ForkKeepsPlaces(s, h, c, target);
    case Wait(h) => ParkKeepsPlaces(s, h, Waiting(h));
    case Reap(h, c) => SameButNowhere(s, Step(s, e), c);
    case Exit(h) => ExitKeepsPlaces(s, h);
    case SemNew(v) =>
      NewQueueKeepsPlaces(s, Sem(|s.sems|));
      SamePlaces(s.(queues := s.queues[Sem(|s.sems|) := []]), Step(s, e));
    case SemP(h, i) => PKeepsPlaces(s, h, i);
    case SemV(h, i) => VKeepsPlaces(s, h, i);
  }

  // ---------------------------------------------------------------- semaphores and ticks

  /** The semaphores and their queues are as before. */
  ghost predicate SameSems(s: State, s': State) {
    && s'.sems == s.sems
    && (forall i :: Sem(i) in s.queues <==> Sem(i) in s'.queues)
    && (forall i :: Sem(i) in s.queues ==> s'.queues[Sem(i)] == s.queues[Sem(i)])
  }

  lemma ScheduleSameSems(s: State, h: nat)
    ensures SameSems(s, Schedule(s, h)) && Schedule(s, h).ticks == s.ticks
  {
  }

  lemma ParkSameSems(s: State, h: nat, q: QueueId, st: Status)
    requires h in s.current
    ensures var s' := Park(s, h, q, st);
            && s'.sems == s.sems && s'.ticks == s.ticks
            && (forall i :: Sem(i) != q ==> (Sem(i) in s'.queues <==> Sem(i) in s.queues))
            && (forall i :: Sem(i) != q && Sem(i) in s.queues ==> s'.queues[Sem(i)] == s.queues[Sem(i)])
            && (q.Sem? ==> q in s'.queues && s'.queues[q] == Queue(s, q) + [s.current[h]])
  {
    hide Schedule;
    ScheduleSameSems(Enqueue(SetStatus(s, s.current[h], st), q, s.current[h]), h);
  }

  lemma ExitSameSems(s: State, h: nat)
    requires h in s.current
    ensures SameSems(s, ExitStep(s, h)) && ExitStep(s, h).ticks == s.ticks
  {
    hide Schedule, WaitHart, Drop;
    ScheduleSameSems(WakeParent(SetStatus(s, s.current[h], ZOMBIE), s.current[h]), h);
  }

  lemma SameSemsOk(s: State, s': State)
    requires SemsOk(s) && SameSems(s, s')
    ensures SemsOk(s')
  {
    forall q | q in s'.queues && q.Sem?
      ensures q.id < |s'.sems|
    {
      assert q == Sem(q.id);
    }
  }

  lemma PKeepsSems(s: State, h: nat, i: nat)
    requires SemsOk(s) && h in s.current && i < |s.sems|
    ensures SemsOk(PStep(s, h, i)) && PStep(s, h, i).ticks == s.ticks
  {
    hide Park;
    var s', s1 := PStep(s, h, i), s.(sems := s.sems[i := s.sems[i] - 1]);
    if s1.sems[i] < 0 {
      ParkSameSems(s1, h, Sem(i), BLOCKED);
    }
    forall q | q in s'.queues && q.Sem?
      ensures q.id < |s'.sems|
    {
      assert q == Sem(q.id);
    }
  }

  lemma VKeepsSems(s: State, h: nat, i: nat)
    requires SemsOk(s) && i < |s.sems| && VStep(s, h, i).Some?
    ensures SemsOk(VStep(s, h, i).value) && VStep(s, h, i).value.ticks == s.ticks
  {
  }

  lemma StepKeepsSems(s: State, e: Event)
    requires SemsOk(s) && TicksOk(s) && Enabled(s, e)
    ensures SemsOk(Step(s, e)) && TicksOk(Step(s, e))
  {
    hide Schedule, Park, ExitStep, PStep, VStep, SemsOk;
    var s' := Step(s, e);
    match e
    case Load(c, target) => SameSemsOk(s, s');
    case Dispatch(h) => ScheduleSameSems(s, h); SameSemsOk(s, s');
    case Yield(h) => ParkSameSems(s, h, Ready(h), READY); SameSemsOk(s, s');
    case Tick(h) => TickSameSems(s, h); SameSemsOk(s, s');
    case Fork(h, c, target) => SameSemsOk(s, s');
    case Wait(h) => ParkSameSems(s, h, Waiting(h), BLOCKED); SameSemsOk(s, s');
    case Reap(h, c) => SameSemsOk(s, s');
    case Exit(h) => ExitSameSems(s, h); SameSemsOk(s, s');
    case SemNew(v) => NewKeepsSems(s, v);
    case SemP(h, i) => PKeepsSems(s, h, i);
    case SemV(h, i) => VKeepsSems(s, h, i);
  }

  lemma TickSameSems(s: State, h: nat)
    requires h in s.current && TicksOk(s)
    ensures SameSems(s, TickStep(s, h)) && TicksOk(TickStep(s, h))
  {
    hide Park;
    var p := s.current[h];
    if TicksOf(s, p) + 1 >= TIME_SLICE_LEN {
      ParkSameSems(s.(ticks := s.ticks[p := 0]), h, Ready(h), READY);
    }
  }

  lemma NewKeepsSems(s: State, v: int)
    requires SemsOk(s)
    ensures SemsOk(Step(s, SemNew(v)))
  {
  }

  lemma StepKeepsInv(s: State, e: Event)
    requires Inv(s) && Enabled(s, e)
    ensures Inv(Step(s, e))
  {
    StepKeepsPlaces(s, e);
    StepKeepsSems(s, e);
  }

  // ---------------------------------------------------------------- runs

  lemma BootIsInv(s: State)
    requires Boot(s)
    ensures Inv(s)
  {
  }

  lemma {:induction false} RunsKeepInv(s: State, run: seq<Event>)
    requires Inv(s) && Exec(s, run).Some?
    ensures Inv(Exec(s, run).value)
    decreases |run|
  {
    hide Inv, Step, Enabled;
    if run != [] {
      StepKeepsInv(s, run[0]);
      RunsKeepInv(Step(s, run[0]), run[1..]);
    }
  }

  /** In every state of every run a process is on at most one queue, and where its status says. */
  lemma OnePlace(s: State, run: seq<Event>, p: nat, q: QueueId, q': QueueId)
    requires Boot(s) && Exec(s, run).Some?
    ensures var t := Exec(s, run).value;
            && (OnQueue(t, p, q) && OnQueue(t, p, q') ==> q == q')
            && (OnQueue(t, p, q) ==> StatusOf(t, p) == QueueStatus(q) && NoDuplicates(t.queues[q]))
            && (StatusOf(t, p) == READY ==> exists h :: OnQueue(t, p, Ready(h)))
            && (StatusOf(t, p) == BLOCKED ==> exists k :: OnQueue(t, p, k) && !k.Ready?)
            && (StatusOf(t, p) == RUNNING <==> exists h :: h in t.current && t.current[h] == p)
            && (forall h, k :: h in t.current && k in t.current && t.current[h] == p == t.current[k] ==> h == k)
  {
    BootIsInv(s);
    RunsKeepInv(s, run);
    var t := Exec(s, run).value;
    hide Exec, Boot;
    if StatusOf(t, p) == READY {
      var k :| OnQueue(t, p, k);
      assert k == Ready(k.hart);
    }
  }

  // ---------------------------------------------------------------- round robin

  /** The position of a process on a hart's ready queue. */
  ghost predicate At(s: State, h: nat, p: nat, k: nat) {
    k < |Queue(s, Ready(h))| && Queue(s, Ready(h))[k] == p
  }

  /** How many ticks of hart `h` the process at position `k` waits at most. */
  function Patience(s: State, h: nat, k: nat): nat {
    if h in s.current && TicksOf(s, s.current[h]) == 0 then 2 * k + 2 else 2 * k + 1
  }

  /** What a step on hart `h` may do to the process at position `k` of its ready queue: dispatch it,
      or leave it waiting with no less patience than `used` ticks. */
  ghost predicate Advances(s: State, s': State, h: nat, p: nat, k: nat, used: nat) {
    || (h in s'.current && s'.current[h] == p)
    || (exists j :: At(s', h, p, j) && Patience(s', h, j) + used <= Patience(s, h, k))
  }

  /** schedule moves the queue up by one. */
  lemma ScheduleAdvances(s: State, h: nat, p: nat, k: nat)
    requires At(s, h, p, k) && TicksOk(s)
    ensures var s' := Schedule(s, h);
            if k == 0 then h in s'.current && s'.current[h] == p
            else At(s', h, p, k - 1) && Patience(s', h, k - 1) <= 2 * k
  {
  }

  /** Parking the current process and scheduling: the queue moves up, whatever queue it parks on. */
  lemma ParkAdvances(s: State, h: nat, q: QueueId, st: Status, p: nat, k: nat)
    requires At(s, h, p, k) && TicksOk(s) && h in s.current
    ensures var s' := Park(s, h, q, st);
            if k == 0 then h in s'.current && s'.current[h] == p
            else At(s', h, p, k - 1) && Patience(s', h, k - 1) <= 2 * k
  {
    hide Schedule;
    var s1 := Enqueue(SetStatus(s, s.current[h], st), q, s.current[h]);
    assert At(s1, h, p, k);
    ScheduleAdvances(s1, h, p, k);
  }

  /** Another hart's schedule leaves this ready queue and this current process alone. */
  lemma ScheduleElsewhere(s: State, g: nat, h: nat)
    requires g != h
    ensures var s' := Schedule(s, g);
            Queue(s', Ready(h)) == Queue(s, Ready(h)) && s'.ticks == s.ticks &&
            (h in s'.current <==> h in s.current) && (h in s.current ==> s'.current[h] == s.current[h])
  {
  }

  /** Ready queues only grow at the tail except by their own hart's schedule. */
  lemma TailOnly(s: State, s': State, h: nat, p: nat, k: nat)
    requires At(s, h, p, k)
    requires Queue(s', Ready(h)) == Queue(s, Ready(h)) || exists x :: Queue(s', Ready(h)) == Queue(s, Ready(h)) + [x]
    requires (h in s'.current <==> h in s.current) && (h in s.current ==> s'.current[h] == s.current[h])
    requires h in s.current ==> TicksOf(s', s.current[h]) == TicksOf(s, s.current[h])
    ensures Advances(s, s', h, p, k, 0)
  {
    assert At(s', h, p, k);
  }

  lemma WakeTail(s: State, x: nat, h: nat)
    ensures var s' := WakeParent(s, x);
            && s'.ticks == s.ticks && s'.current == s.current
            && (Queue(s', Ready(h)) == Queue(s, Ready(h))
                || exists w :: Queue(s', Ready(h)) == Queue(s, Ready(h)) + [w])
  {
    hide WaitHart, Drop;
    var s' := WakeParent(s, x);
    if x in s.parent && WaitHart(s, s.parent[x], 0) == Some(h) {
      assert Queue(s', Ready(h)) == Queue(s, Ready(h)) + [s.parent[x]];
    }
  }

  /** A kernel entry of hart `h` itself that gives up the processor. */
  lemma OwnStepAdvances(s: State, e: Event, h: nat, p: nat, k: nat)
    requires Inv(s) && Enabled(s, e) && At(s, h, p, k)
    requires e == Dispatch(h) || e == Yield(h) || e == Wait(h) || e == Exit(h)
    ensures Advances(s, Step(s, e), h, p, k, 0)
  {
    hide Schedule, Park, PlacesOk;
    match e
    case Dispatch(_) => ScheduleAdvances(s, h, p, k);
    case Yield(_) => ParkAdvances(s, h, Ready(h), READY, p, k);
    case Wait(_) => ParkAdvances(s, h, Waiting(h), BLOCKED, p, k);
    case Exit(_) =>
      var z := SetStatus(s, s.current[h], ZOMBIE);
      var w := WakeParent(z, s.current[h]);
      WakeTail(z, s.current[h], h);
      assert At(w, h, p, k);
      ScheduleAdvances(w, h, p, k);
  }

  lemma OwnTickAdvances(s: State, h: nat, p: nat, k: nat)
    requires Inv(s) && h in s.current && At(s, h, p, k)
    ensures Advances(s, TickStep(s, h), h, p, k, 1)
  {
    hide Park, PlacesOk;
    var c, s' := s.current[h], TickStep(s, h);
    if TicksOf(s, c) + 1 >= TIME_SLICE_LEN {
      var s1 := s.(ticks := s.ticks[c := 0]);
      assert At(s1, h, p, k);
      ParkAdvances(s1, h, Ready(h), READY, p, k);
    } else {
      assert At(s', h, p, k);
    }
  }

  lemma OwnSemAdvances(s: State, h: nat, i: nat, p: nat, k: nat)
    requires Inv(s) && h in s.current && i < |s.sems| && At(s, h, p, k)
    ensures Advances(s, PStep(s, h, i), h, p, k, 0)
  {
    hide Park, PlacesOk;
    var s1 := s.(sems := s.sems[i := s.sems[i] - 1]);
    if s1.sems[i] < 0 {
      assert At(s1, h, p, k);
      ParkAdvances(s1, h, Sem(i), BLOCKED, p, k);
    } else {
      TailOnly(s, PStep(s, h, i), h, p, k);
    }
  }

  lemma ParkElsewhere(s: State, g: nat, q: QueueId, st: Status, h: nat, p: nat, k: nat)
    requires g in s.current && g != h && At(s, h, p, k) && q != Ready(h)
    ensures Advances(s, Park(s, g, q, st), h, p, k, 0)
  {
    hide Schedule;
    ScheduleElsewhere(Enqueue(SetStatus(s, s.current[g], st), q, s.current[g]), g, h);
    TailOnly(s, Park(s, g, q, st), h, p, k);
  }

  /** A kernel entry of another hart. */
  lemma OtherStepAdvances(s: State, e: Event, g: nat, h: nat, p: nat, k: nat)
    requires Inv(s) && Enabled(s, e) && At(s, h, p, k) && g != h
    requires e == Dispatch(g) || e == Yield(g) || e == Wait(g) || e == Exit(g) || e == Tick(g)
        || (e.SemP? && e.hart == g)
    ensures Advances(s, Step(s, e), h, p, k, 0)
  {
    hide Schedule, Park;
    match e
    case Dispatch(_) => ScheduleElsewhere(s, g, h); TailOnly(s, Step(s, e), h, p, k);
    case Yield(_) => ParkElsewhere(s, g, Ready(g), READY, h, p, k);
    case Wait(_) => ParkElsewhere(s, g, Waiting(g), BLOCKED, h, p, k);
    case Exit(_) =>
      var z := SetStatus(s, s.current[g], ZOMBIE);
      WakeTail(z, s.current[g], h);
      ScheduleElsewhere(WakeParent(z, s.current[g]), g, h);
      TailOnly(s, Step(s, e), h, p, k);
    case Tick(_) =>
      var c := s.current[g];
      assert h in s.current ==> s.current[h] != c;
      if TicksOf(s, c) + 1 >= TIME_SLICE_LEN {
        var s1 := s.(ticks := s.ticks[c := 0]);
        assert At(s1, h, p, k) && Patience(s1, h, k) == Patience(s, h, k);
        ParkElsewhere(s1, g, Ready(g), READY, h, p, k);
      } else {
        TailOnly(s, Step(s, e), h, p, k);
      }
    case SemP(_, i) =>
      var s1 := s.(sems := s.sems[i := s.sems[i] - 1]);
      if s1.sems[i] < 0 {
        assert At(s1, h, p, k) && Patience(s1, h, k) == Patience(s, h, k);
        ParkElsewhere(s1, g, Sem(i), BLOCKED, h, p, k);
      } else {
        TailOnly(s, Step(s, e), h, p, k);
      }
  }

  /** Entries that leave every hart's current process alone. */
  lemma QuietStepAdvances(s: State, e: Event, h: nat, p: nat, k: nat)
    requires Inv(s) && Enabled(s, e) && At(s, h, p, k)
    requires e.Load? || e.Fork? || e.Reap? || e.SemNew? || e.SemV?
    ensures Advances(s, Step(s, e), h, p, k, 0)
  {
    hide PlacesOk;
    var s' := Step(s, e);
    if (e.Fork? || e.Load?) && e.target == h {
      assert Queue(s', Ready(h)) == Queue(s, Ready(h)) + [e.child];
    } else if e.SemV? && e.hart == h && s.sems[e.id] + 1 <= 0 {
      assert Queue(s', Ready(h)) == Queue(s, Ready(h)) + [Queue(s, Sem(e.id))[0]];
    }
    TailOnly(s, s', h, p, k);
  }

  /** Every step leaves a waiting process at least as close to the processor, and every tick of its
      hart brings it closer. */
  lemma StepAdvances(s: State, e: Event, h: nat, p: nat, k: nat)
    requires Inv(s) && Enabled(s, e) && At(s, h, p, k)
    ensures Advances(s, Step(s, e), h, p, k, if e == Tick(h) then 1 else 0)
  {
    hide Inv, Advances, Schedule, Park, ExitStep, PStep, VStep, TickStep;
    if e.Load? || e.Fork? || e.Reap? || e.SemNew? || e.SemV? {
      QuietStepAdvances(s, e, h, p, k);
    } else if e.hart != h {
      OtherStepAdvances(s, e, e.hart, h, p, k);
    } else if e.Tick? {
      OwnTickAdvances(s, h, p, k);
    } else if e.SemP? {
      OwnSemAdvances(s, h, e.id, p, k);
    } else {
      OwnStepAdvances(s, e, h, p, k);
    }
  }

  function TickCount(run: seq<Event>, h: nat): nat {
    if run == [] then 0 else (if run[0] == Tick(h) then 1 else 0) + TickCount(run[1..], h)
  }

  /** Hart `h` runs `p` at some point of the run. */
  ghost predicate Dispatched(s: State, run: seq<Event>, h: nat, p: nat)
    decreases |run|
  {
    run != [] && Enabled(s, run[0]) &&
    var s' := Step(s, run[0]);
    ((h in s'.current && s'.current[h] == p) || Dispatched(s', run[1..], h, p))
  }

  lemma {:induction false} PatienceBound(s: State, run: seq<Event>, h: nat, p: nat, k: nat)
    requires Inv(s) && Exec(s, run).Some? && At(s, h, p, k)
    requires TickCount(run, h) >= Patience(s, h, k)
    ensures Dispatched(s, run, h, p)
    decreases |run|
  {
    hide Inv, Step, At, Patience;
    assert TickCount(run, h) > 0 by { PatiencePositive(s, h, k); }
    var e := run[0];
    StepAdvances(s, e, h, p, k);
    StepKeepsInv(s, e);
    var s' := Step(s, e);
    if !(h in s'.current && s'.current[h] == p) {
      var j :| At(s', h, p, j) && Patience(s', h, j) + (if e == Tick(h) then 1 else 0) <= Patience(s, h, k);
      PatienceBound(s', run[1..], h, p, j);
    }
  }

  lemma PatiencePositive(s: State, h: nat, k: nat)
    ensures 1 <= Patience(s, h, k) <= 2 * (k + 1)
  {
  }

  /** Round robin: in every run the process at position `k` of a hart's ready queue is dispatched
      within 2(k+1) timer ticks of that hart. */
  lemma RoundRobin(s: State, prefix: seq<Event>, run: seq<Event>, h: nat, p: nat, k: nat)
    requires Boot(s) && Exec(s, prefix).Some? && Exec(Exec(s, prefix).value, run).Some?
    requires At(Exec(s, prefix).value, h, p, k) && TickCount(run, h) >= 2 * (k + 1)
    ensures Dispatched(Exec(s, prefix).value, run, h, p)
  {
    BootIsInv(s);
    RunsKeepInv(s, prefix);
    PatiencePositive(Exec(s, prefix).value, h, k);
    PatienceBound(Exec(s, prefix).value, run, h, p, k);
  }
}
