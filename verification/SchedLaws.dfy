/** What each kernel entry does to the processes concerned, and that it does nothing else: stated on the
    queues and statuses before and after, without the routines that the entries are made of. */
module SchedLaws {
  import opened Basics
  import opened Chains
  import opened Sched
  import opened SchedProofs

  /** Hart `h`, with `q` waiting for it, runs the head of `q` or goes idle; no other hart switches. */
  ghost predicate Switched(s: State, t: State, h: nat, q: seq<nat>) {
    && (q == [] ==> h !in t.current && Queue(t, Ready(h)) == [])
    && (q != [] ==> h in t.current && t.current[h] == q[0] && StatusOf(t, q[0]) == RUNNING)
    && (q != [] ==> Queue(t, Ready(h)) == q[1..])
    && (forall k :: k != h ==> (k in t.current <==> k in s.current))
    && (forall k :: k != h && k in s.current ==> t.current[k] == s.current[k])
  }

  /** Only the queues of `qs` and the statuses of `ps` may differ, and nothing else of the state. */
  ghost predicate OnlyThese(s: State, t: State, qs: set<QueueId>, ps: set<nat>) {
    && (forall q :: q !in qs ==> Queue(t, q) == Queue(s, q))
    && (forall p :: p !in ps ==> StatusOf(t, p) == StatusOf(s, p))
    && t.harts == s.harts && t.sems == s.sems
  }

  ghost function Running(t: State, h: nat): set<nat> {
    if h in t.current then {t.current[h]} else {}
  }

  lemma SwitchLaw(s: State, h: nat)
    ensures var t := Schedule(s, h);
            && Switched(s, t, h, Queue(s, Ready(h))) && OnlyThese(s, t, {Ready(h)}, Running(t, h))
            && t.parent == s.parent && t.ticks == s.ticks
  {
  }

  lemma ThenSwitched(s: State, m: State, t: State, h: nat, qs: set<QueueId>, ps: set<nat>, q: seq<nat>)
    requires OnlyThese(s, m, qs, ps) && m.current == s.current
    requires Switched(m, t, h, q) && OnlyThese(m, t, {Ready(h)}, Running(t, h))
    ensures Switched(s, t, h, q) && OnlyThese(s, t, qs + {Ready(h)}, ps + Running(t, h))
  {
    hide Queue, StatusOf;
  }

  lemma QueueStays(m: State, t: State, h: nat, q: QueueId)
    requires OnlyThese(m, t, {Ready(h)}, Running(t, h)) && q != Ready(h)
    ensures Queue(t, q) == Queue(m, q)
  {
  }

  lemma NextRuns(m: State, t: State, h: nat, q: seq<nat>)
    requires Switched(m, t, h, q) && q != []
    ensures StatusOf(t, q[0]) == RUNNING
  {
  }

  /** A process that is not next in line keeps its status. */
  lemma NotNext(m: State, t: State, h: nat, q: seq<nat>, x: nat)
    requires Switched(m, t, h, q) && OnlyThese(m, t, {Ready(h)}, Running(t, h)) && (q != [] ==> q[0] != x)
    ensures StatusOf(t, x) == StatusOf(m, x)
  {
    hide Queue, StatusOf;
  }

  /** A process that runs is on no queue. */
  lemma RunsUnqueued(s: State, h: nat, q: QueueId)
    requires Inv(s) && h in s.current
    ensures s.current[h] !in Queue(s, q)
  {
    assert !OnQueue(s, s.current[h], q);
  }

  /** The current process goes to the tail of another queue than its hart's ready queue. */
  lemma ParkLaw(s: State, h: nat, q: QueueId, st: Status)
    requires h in s.current && s.current[h] !in Queue(s, Ready(h)) && q != Ready(h)
    ensures var t, p := Park(s, h, q, st), s.current[h];
            && Switched(s, t, h, Queue(s, Ready(h))) && Queue(t, q) == Queue(s, q) + [p] && StatusOf(t, p) == st
            && OnlyThese(s, t, {q, Ready(h)}, {p} + Running(t, h)) && t.parent == s.parent && t.ticks == s.ticks
  {
    var p := s.current[h];
    var m := Enqueue(SetStatus(s, p, st), q, p);
    var t := Schedule(m, h);
    SwitchLaw(m, h);
    assert Queue(m, q) == Queue(s, q) + [p] && StatusOf(m, p) == st && Queue(m, Ready(h)) == Queue(s, Ready(h));
    assert OnlyThese(s, m, {q}, {p});
    hide Schedule, Queue, StatusOf, OnlyThese, Switched;
    ThenSwitched(s, m, t, h, {q}, {p}, Queue(s, Ready(h)));
    NotNext(m, t, h, Queue(s, Ready(h)), p);
    QueueStays(m, t, h, q);
    assert {q} + {Ready(h)} == {q, Ready(h)};
  }

  /** yield: the caller goes behind those that wait for its hart, and the first of them runs. */
  lemma YieldLaw(s: State, h: nat)
    requires h in s.current
    ensures var t, p := Step(s, Yield(h)), s.current[h];
            && Switched(s, t, h, Queue(s, Ready(h)) + [p])
            && (Queue(s, Ready(h)) != [] && Queue(s, Ready(h))[0] != p ==> StatusOf(t, p) == READY)
            && OnlyThese(s, t, {Ready(h)}, {p} + Running(t, h)) && t.parent == s.parent && t.ticks == s.ticks
  {
  }

  /** The timer: the first tick of a slice is counted, the second one starts a new slice and yields. */
  lemma TickLaw(s: State, h: nat)
    requires h in s.current
    ensures var t, p := Step(s, Tick(h)), s.current[h];
            if TicksOf(s, p) == 0 then t == s.(ticks := s.ticks[p := 1])
            else && Switched(s, t, h, Queue(s, Ready(h)) + [p])
                 && (Queue(s, Ready(h)) != [] && Queue(s, Ready(h))[0] != p ==> StatusOf(t, p) == READY)
                 && OnlyThese(s, t, {Ready(h)}, {p} + Running(t, h)) && t.parent == s.parent
                 && t.ticks == s.ticks[p := 0]
  {
  }

  /** wait, where it blocks: the caller sleeps at the tail of its hart's wait queue. */
  lemma WaitLaw(s: State, h: nat)
    requires Inv(s) && h in s.current
    ensures var t, p := Step(s, Wait(h)), s.current[h];
            && Switched(s, t, h, Queue(s, Ready(h)))
            && Queue(t, Waiting(h)) == Queue(s, Waiting(h)) + [p] && StatusOf(t, p) == BLOCKED
            && OnlyThese(s, t, {Ready(h), Waiting(h)}, {p} + Running(t, h))
            && t.parent == s.parent && t.ticks == s.ticks
  {
    hide Inv;
    RunsUnqueued(s, h, Ready(h));
    ParkLaw(s, h, Waiting(h), BLOCKED);
    assert {Waiting(h), Ready(h)} == {Ready(h), Waiting(h)};
  }

  /** fork: the child is READY at the tail of a ready queue with the caller as its parent, and the caller
      goes on. */
  lemma ForkLaw(s: State, h: nat, c: nat, target: nat)
    requires Enabled(s, Fork(h, c, target))
    ensures var t := Step(s, Fork(h, c, target));
            && Queue(t, Ready(target)) == Queue(s, Ready(target)) + [c] && StatusOf(t, c) == READY
            && t.parent == s.parent[c := s.current[h]]
            && OnlyThese(s, t, {Ready(target)}, {c}) && t.current == s.current && t.ticks == s.ticks
  {
  }

  /** A loaded program is READY at the tail of its hart's queue, without a parent. */
  lemma LoadLaw(s: State, c: nat, target: nat)
    requires Enabled(s, Load(c, target))
    ensures var t := Step(s, Load(c, target));
            && Queue(t, Ready(target)) == Queue(s, Ready(target)) + [c] && StatusOf(t, c) == READY
            && t.parent == s.parent - {c}
            && OnlyThese(s, t, {Ready(target)}, {c}) && t.current == s.current && t.ticks == s.ticks
  {
  }

  /** Reaping: the zombie's slot is FREE and nothing else happens. */
  lemma ReapLaw(s: State, h: nat, c: nat)
    requires Enabled(s, Reap(h, c))
    ensures var t := Step(s, Reap(h, c));
            && StatusOf(t, c) == FREE && OnlyThese(s, t, {}, {c})
            && t.current == s.current && t.parent == s.parent && t.ticks == s.ticks
  {
  }

  /** An idle hart runs the first process that waits for it. */
  lemma DispatchLaw(s: State, h: nat)
    requires Enabled(s, Dispatch(h))
    ensures var t := Step(s, Dispatch(h));
            && Switched(s, t, h, Queue(s, Ready(h))) && OnlyThese(s, t, {Ready(h)}, Running(t, h))
            && t.parent == s.parent && t.ticks == s.ticks
  {
  }

  /** P: the value goes down by one; if it was not positive the caller sleeps at the tail of the semaphore's
      queue and its hart runs the next, otherwise the caller goes on. */
  lemma PLaw(s: State, h: nat, i: nat)
    requires Inv(s) && Enabled(s, SemP(h, i))
    ensures var t, p := Step(s, SemP(h, i)), s.current[h];
            && t.sems == s.sems[i := s.sems[i] - 1] && t.parent == s.parent && t.ticks == s.ticks
            && if s.sems[i] > 0 then t.current == s.current && OnlyThese(s, t.(sems := s.sems), {}, {})
               else && Switched(s, t, h, Queue(s, Ready(h)))
                    && Queue(t, Sem(i)) == Queue(s, Sem(i)) + [p] && StatusOf(t, p) == BLOCKED
                    && OnlyThese(s, t.(sems := s.sems), {Ready(h), Sem(i)}, {p} + Running(t, h))
  {
    hide Inv, Park;
    var s1 := s.(sems := s.sems[i := s.sems[i] - 1]);
    RunsUnqueued(s, h, Ready(h));
    assert forall q :: Queue(s1, q) == Queue(s, q);
    if s.sems[i] <= 0 {
      ParkLaw(s1, h, Sem(i), BLOCKED);
      assert {Sem(i), Ready(h)} == {Ready(h), Sem(i)};
    }
  }

  /** V: the value goes up by one; if it was negative the longest sleeper is READY at the tail of the queue of
      the caller's hart. The caller goes on. */
  lemma VLaw(s: State, h: nat, i: nat)
    requires Enabled(s, SemV(h, i))
    ensures var t, q := Step(s, SemV(h, i)), Queue(s, Sem(i));
            && t.sems == s.sems[i := s.sems[i] + 1] && t.current == s.current
            && t.parent == s.parent && t.ticks == s.ticks
            && if s.sems[i] >= 0 then OnlyThese(s, t.(sems := s.sems), {}, {})
               else && q != [] && Queue(t, Sem(i)) == q[1..] && Queue(t, Ready(h)) == Queue(s, Ready(h)) + [q[0]]
                    && StatusOf(t, q[0]) == READY && OnlyThese(s, t.(sems := s.sems), {Sem(i), Ready(h)}, {q[0]})
  {
  }

  // ---------------------------------------------------------------- exit

  /** The parent of the process that runs on `h` is `w`, and sleeps on the wait queue of hart `k`. */
  ghost predicate ParentWaits(s: State, h: nat, w: nat, k: nat)
    requires h in s.current
  {
    s.current[h] in s.parent && s.parent[s.current[h]] == w && k < s.harts && w in Queue(s, Waiting(k))
  }

  /** `q'` is `q` with one occurrence of `w` taken out, the rest in its order, and has no other. */
  ghost predicate Left(q: seq<nat>, w: nat, q': seq<nat>) {
    w !in q' && exists i :: 0 <= i < |q| && q[i] == w && q' == q[..i] + q[i + 1..]
  }

  lemma DropLeaves(q: seq<nat>, w: nat)
    requires NoDuplicates(q) && w in q
    ensures Left(q, w, Drop(q, w))
  {
    var i := DropRemoves(q, w);
    NoDuplicatesWithout(q, i);
  }

  lemma WaitsOnOne(s: State, h: nat, w: nat, k: nat)
    requires Inv(s) && h in s.current && ParentWaits(s, h, w, k)
    ensures WaitHart(SetStatus(s, s.current[h], ZOMBIE), w, 0) == Some(k) && w != s.current[h]
    ensures forall q :: q != Waiting(k) ==> w !in Queue(s, q)
    ensures Left(Queue(s, Waiting(k)), w, Drop(Queue(s, Waiting(k)), w))
  {
    var z := SetStatus(s, s.current[h], ZOMBIE);
    assert OnQueue(s, w, Waiting(k));
    forall q | q != Waiting(k)
      ensures w !in Queue(s, q)
    {
      assert OnQueue(s, w, q) ==> q == Waiting(k);
    }
    assert forall q :: Queue(z, q) == Queue(s, q);
    WaitHartFinds(z, w, 0);
    DropLeaves(Queue(s, Waiting(k)), w);
  }

  /** What the exit leaves for the hart to schedule. */
  lemma WokenParent(s: State, h: nat, w: nat, k: nat)
    requires Inv(s) && h in s.current && ParentWaits(s, h, w, k)
    ensures var m, p := WakeParent(SetStatus(s, s.current[h], ZOMBIE), s.current[h]), s.current[h];
            && Left(Queue(s, Waiting(k)), w, Queue(m, Waiting(k))) && Queue(m, Ready(k)) == Queue(s, Ready(k)) + [w]
            && StatusOf(m, p) == ZOMBIE && StatusOf(m, w) == READY && OnlyThese(s, m, {Waiting(k), Ready(k)}, {p, w})
            && m.current == s.current && m.parent == s.parent && m.ticks == s.ticks
  {
    WaitsOnOne(s, h, w, k);
    hide Inv, WaitHart, Drop, Left;
  }

  lemma NobodyWoken(s: State, h: nat)
    requires h in s.current && forall w, k :: !ParentWaits(s, h, w, k)
    ensures var z := SetStatus(s, s.current[h], ZOMBIE); WakeParent(z, s.current[h]) == z
  {
    var p := s.current[h];
    var z := SetStatus(s, p, ZOMBIE);
    if p in s.parent {
      WaitHartFinds(z, s.parent[p], 0);
      assert forall q :: Queue(z, q) == Queue(s, q);
      assert WaitHart(z, s.parent[p], 0).Some? ==>
               ParentWaits(s, h, s.parent[p], WaitHart(z, s.parent[p], 0).value);
    }
  }

  lemma OwnQueue(s: State, m: State, h: nat, w: nat, k: nat, p: nat)
    requires OnlyThese(s, m, {Waiting(k), Ready(k)}, {p, w}) && Queue(m, Ready(k)) == Queue(s, Ready(k)) + [w]
    ensures Queue(m, Ready(h)) == Queue(s, Ready(h)) + if k == h then [w] else []
  {
    hide Queue, StatusOf;
  }

  lemma WaitsNowhere(s: State, t: State, h: nat, w: nat, k: nat)
    requires h in s.current && OnlyThese(s, t, {Waiting(k), Ready(k), Ready(h)}, {s.current[h], w} + Running(t, h))
    requires Left(Queue(s, Waiting(k)), w, Queue(t, Waiting(k)))
    requires forall q :: q != Waiting(k) ==> w !in Queue(s, q)
    ensures forall j :: w !in Queue(t, Waiting(j))
  {
    hide Queue, StatusOf;
    forall j ensures w !in Queue(t, Waiting(j)) { assert j != k ==> Queue(t, Waiting(j)) == Queue(s, Waiting(j)); }
  }

  /** exit with the parent asleep on hart `k`: it leaves that wait queue, the others in their order, and is
      READY behind those that wait for `k`; then the hart of the exiting process runs the first in line,
      which is the parent if it has just become the only one. */
  lemma ExitWakesParent(s: State, h: nat, w: nat, k: nat)
    requires Inv(s) && h in s.current && ParentWaits(s, h, w, k)
    ensures var t, p := Step(s, Exit(h)), s.current[h];
            && StatusOf(t, p) == ZOMBIE
            && (forall j :: w !in Queue(t, Waiting(j)))
            && Left(Queue(s, Waiting(k)), w, Queue(t, Waiting(k)))
            && Switched(s, t, h, Queue(s, Ready(h)) + if k == h then [w] else [])
            && (k != h ==> Queue(t, Ready(k)) == Queue(s, Ready(k)) + [w])
            && StatusOf(t, w) == (if k == h && Queue(s, Ready(h)) == [] then RUNNING else READY)
            && OnlyThese(s, t, {Waiting(k), Ready(k), Ready(h)}, {p, w} + Running(t, h))
            && t.parent == s.parent && t.ticks == s.ticks
  {
    hide Inv, WakeParent, Schedule, WaitHart, Drop, StatusOf, Left, Switched, OnlyThese, Queue;
    var p := s.current[h];
    var m := WakeParent(SetStatus(s, p, ZOMBIE), p);
    WaitsOnOne(s, h, w, k);
    WokenParent(s, h, w, k);
    RunsUnqueued(s, h, Ready(h));
    SwitchLaw(m, h);
    var t, q := Schedule(m, h), Queue(s, Ready(h)) + if k == h then [w] else [];
    assert Queue(m, Ready(h)) == q by { OwnQueue(s, m, h, w, k, p); }
    ThenSwitched(s, m, t, h, {Waiting(k), Ready(k)}, {p, w}, q);
    NotNext(m, t, h, q, p);
    if k == h && Queue(s, Ready(h)) == [] {
      NextRuns(m, t, h, q);
    } else {
      NotNext(m, t, h, q, w);
    }
    QueueStays(m, t, h, Waiting(k));
    if k != h {
      QueueStays(m, t, h, Ready(k));
    }
    assert {Waiting(k), Ready(k)} + {Ready(h)} == {Waiting(k), Ready(k), Ready(h)};
    WaitsNowhere(s, t, h, w, k);
  }

  /** exit with no parent asleep: nobody is woken. */
  lemma ExitWakesNobody(s: State, h: nat)
    requires Inv(s) && h in s.current && forall w, k :: !ParentWaits(s, h, w, k)
    ensures var t, p := Step(s, Exit(h)), s.current[h];
            && StatusOf(t, p) == ZOMBIE && Switched(s, t, h, Queue(s, Ready(h)))
            && OnlyThese(s, t, {Ready(h)}, {p} + Running(t, h)) && t.parent == s.parent && t.ticks == s.ticks
  {
    var z := SetStatus(s, s.current[h], ZOMBIE);
    RunsUnqueued(s, h, Ready(h));
    NobodyWoken(s, h);
    SwitchLaw(z, h);
    hide Inv, WakeParent, Schedule;
    assert forall q :: Queue(z, q) == Queue(s, q);
    ThenSwitched(s, z, Schedule(z, h), h, {}, {s.current[h]}, Queue(s, Ready(h)));
    NotNext(z, Schedule(z, h), h, Queue(s, Ready(h)), s.current[h]);
  }

  // ---------------------------------------------------------------- how long a parent sleeps

  /** A child of `w` exits. */
  predicate ChildExits(s: State, e: Event, w: nat) {
    e.Exit? && e.hart in s.current && s.current[e.hart] in s.parent && s.parent[s.current[e.hart]] == w
  }

  lemma QuietForWaiters(s: State, e: Event, k: nat)
    requires Enabled(s, e) && !e.Exit?
    ensures Queue(s, Waiting(k)) <= Queue(Step(s, e), Waiting(k))
  {
  }

  lemma LeftKeepsOthers(q: seq<nat>, w: nat, q': seq<nat>, x: nat)
    requires Left(q, w, q') && x in q && x != w
    ensures x in q'
  {
    var i :| 0 <= i < |q| && q[i] == w && q' == q[..i] + q[i + 1..];
    assert q == q[..i] + [w] + q[i + 1..];
  }

  /** The exit of another process's child. */
  lemma OtherExit(s: State, h: nat, w: nat, k: nat)
    requires Inv(s) && h in s.current && w in Queue(s, Waiting(k)) && !ChildExits(s, Exit(h), w)
    ensures w in Queue(Step(s, Exit(h)), Waiting(k)) && Step(s, Exit(h)).harts == s.harts
  {
    hide Inv, Step, Queue, Left, Switched;
    if x, j :| ParentWaits(s, h, x, j) {
      ExitWakesParent(s, h, x, j);
      if j == k {
        LeftKeepsOthers(Queue(s, Waiting(k)), x, Queue(Step(s, Exit(h)), Waiting(k)), w);
      }
    } else {
      ExitWakesNobody(s, h);
    }
  }

  /** A process asleep in wait goes on sleeping in every step but the exit of a child of its. */
  lemma SleepsUntilChildExits(s: State, e: Event, w: nat, k: nat)
    requires Inv(s) && Enabled(s, e) && k < s.harts && w in Queue(s, Waiting(k))
    ensures w in Queue(Step(s, e), Waiting(k)) <==> !ChildExits(s, e, w)
    ensures Step(s, e).harts == s.harts
  {
    if ChildExits(s, e, w) {
      ExitWakesParent(s, e.hart, w, k);
    } else if e.Exit? {
      OtherExit(s, e.hart, w, k);
    } else {
      QuietForWaiters(s, e, k);
    }
  }

  /** In every state of the run `w` is on the wait queue of hart `k`. */
  ghost predicate SleepsThrough(s: State, run: seq<Event>, w: nat, k: nat)
    decreases |run|
  {
    && w in Queue(s, Waiting(k))
    && (run != [] && Enabled(s, run[0]) ==> SleepsThrough(Step(s, run[0]), run[1..], w, k))
  }

  ghost predicate SomeChildExits(s: State, run: seq<Event>, w: nat)
    decreases |run|
  {
    run != [] && Enabled(s, run[0])
    && (ChildExits(s, run[0], w) || SomeChildExits(Step(s, run[0]), run[1..], w))
  }

  /** Over every run a process asleep in wait sleeps on exactly as long as no child of its exits. */
  lemma {:induction false} SleepsOverRun(s: State, run: seq<Event>, w: nat, k: nat)
    requires Inv(s) && Exec(s, run).Some? && k < s.harts && w in Queue(s, Waiting(k))
    ensures SleepsThrough(s, run, w, k) <==> !SomeChildExits(s, run, w)
    decreases |run|
  {
    hide Inv, Step, Enabled, Queue;
    if run != [] {
      SleepsUntilChildExits(s, run[0], w, k);
      StepKeepsInv(s, run[0]);
      if !ChildExits(s, run[0], w) {
        SleepsOverRun(Step(s, run[0]), run[1..], w, k);
      }
    }
  }

  // ---------------------------------------------------------------- do_wait

  /** What do_wait does. */
  datatype WaitResult = Refused | Reaped(child: nat) | Blocks

  /** The first child of `p` from `c` on that is not FREE. */
  function FirstChild(s: State, p: nat, c: nat, procs: nat): Option<nat>
    decreases procs - c
  {
    if c >= procs then None
    else if c in s.parent && s.parent[c] == p && StatusOf(s, c) != FREE then Some(c)
    else FirstChild(s, p, c + 1, procs)
  }

  function Waited(s: State, p: nat, pid: int, procs: nat): WaitResult {
    if pid > 0 then if pid < procs && pid in s.parent && s.parent[pid] == p then Blocks else Refused
    else if pid != -1 then Refused
    else
      match FirstChild(s, p, 0, procs)
      case None => Refused
      case Some(c) => if StatusOf(s, c) == ZOMBIE then Reaped(c) else Blocks
  }

  predicate ChildOf(s: State, p: nat, c: nat) {
    c in s.parent && s.parent[c] == p
  }

  /** `c` is the first child of `p` whose slot is in use. */
  predicate Eldest(s: State, p: nat, c: nat, procs: nat) {
    && c < procs && ChildOf(s, p, c) && StatusOf(s, c) != FREE
    && forall j :: 0 <= j < c ==> !ChildOf(s, p, j) || StatusOf(s, j) == FREE
  }

  lemma {:induction false} FirstChildIs(s: State, p: nat, c: nat, procs: nat)
    requires forall j :: 0 <= j < c ==> !ChildOf(s, p, j) || StatusOf(s, j) == FREE
    ensures match FirstChild(s, p, c, procs)
            case None => forall j :: 0 <= j < procs ==> !ChildOf(s, p, j) || StatusOf(s, j) == FREE
            case Some(x) => Eldest(s, p, x, procs)
    decreases procs - c
  {
    if c < procs && !(ChildOf(s, p, c) && StatusOf(s, c) != FREE) {
      FirstChildIs(s, p, c + 1, procs);
    }
  }

  /** wait is refused exactly without the child asked for; it reaps exactly if any child will do and the
      first one in use is a zombie; in all other cases it blocks, for a given child even if that is a
      zombie already. */
  lemma WaitedIs(s: State, p: nat, pid: int, procs: nat)
    ensures match Waited(s, p, pid, procs)
            case Refused =>
              && !(0 < pid < procs && ChildOf(s, p, pid))
              && (pid == -1 ==> forall j :: 0 <= j < procs ==> !ChildOf(s, p, j) || StatusOf(s, j) == FREE)
            case Reaped(c) => pid == -1 && Eldest(s, p, c, procs) && StatusOf(s, c) == ZOMBIE
            case Blocks =>
              || (0 < pid < procs && ChildOf(s, p, pid))
              || (pid == -1 && exists c :: Eldest(s, p, c, procs) && StatusOf(s, c) != ZOMBIE)
  {
    FirstChildIs(s, p, 0, procs);
  }

  /** A process that waits by number for a child that is a zombie already sleeps, and sleeps on through
      every run in which no other child of its exits. */
  lemma WaitForZombieSleeps(s: State, h: nat, c: nat, procs: nat, run: seq<Event>)
    requires Inv(s) && h in s.current && 0 < c < procs && ChildOf(s, s.current[h], c) && StatusOf(s, c) == ZOMBIE
    requires var t := Step(s, Wait(h)); Exec(t, run).Some? && !SomeChildExits(t, run, s.current[h])
    ensures Waited(s, s.current[h], c, procs) == Blocks
    ensures SleepsThrough(Step(s, Wait(h)), run, s.current[h], h)
  {
    WaitLaw(s, h);
    StepKeepsInv(s, Wait(h));
    assert h < s.harts;
    hide Inv, Step;
    SleepsOverRun(Step(s, Wait(h)), run, s.current[h], h);
  }
}
