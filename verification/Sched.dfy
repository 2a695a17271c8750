/** The scheduler and the semaphores (kernel/sched.c, kernel/semaphore.c, kernel/strap.c,
    kernel/syscall.c) as a machine whose steps are the kernel entries. */
module Sched {
  import opened Basics

  datatype Status = FREE | READY | RUNNING | BLOCKED | ZOMBIE

  /** One ready queue and one wait queue a hart, one queue a semaphore. */
  datatype QueueId = Ready(hart: nat) | Waiting(hart: nat) | Sem(id: nat)

  type Queues = map<QueueId, seq<nat>>

  /** A hart without an entry in `current` spins in schedule for work; a process without an entry in
      `status` is FREE. `sems` has the values of the semaphores. */
  datatype State = State(
    harts: nat, status: map<nat, Status>, parent: map<nat, nat>, ticks: map<nat, nat>, queues: Queues,
    current: map<nat, nat>, sems: seq<int>)

  const TIME_SLICE_LEN: nat := 2

  datatype Event =
    /** the program given to a hart at boot */
    | Load(child: nat, target: nat)
    | Dispatch(hart: nat)
    | Yield(hart: nat)
    | Tick(hart: nat)
    | Fork(hart: nat, child: nat, target: nat)
    | Wait(hart: nat)
    | Reap(hart: nat, child: nat)
    | Exit(hart: nat)
    | SemNew(initial: int)
    | SemP(hart: nat, id: nat)
    | SemV(hart: nat, id: nat)

  function StatusOf(s: State, p: nat): Status {
    if p in s.status then s.status[p] else FREE
  }

  function TicksOf(s: State, p: nat): nat {
    if p in s.ticks then s.ticks[p] else 0
  }

  function Queue(s: State, q: QueueId): seq<nat> {
    if q in s.queues then s.queues[q] else []
  }

  // ---------------------------------------------------------------- queue operations

  function SetStatus(s: State, p: nat, st: Status): State {
    s.(status := s.status[p := st])
  }

  /** Appending at the tail, as both insert routines do for a process that is not queued. */
  function Enqueue(s: State, q: QueueId, p: nat): State {
    s.(queues := s.queues[q := Queue(s, q) + [p]])
  }

  /** schedule: run the head of the hart's ready queue, or go idle. */
  function Schedule(s: State, h: nat): State {
    var q := Queue(s, Ready(h));
    if q == [] then s.(current := s.current - {h})
    else SetStatus(s, q[0], RUNNING).(queues := s.queues[Ready(h) := q[1..]], current := s.current[h := q[0]])
  }

  /** The current process of `h` goes to the tail of queue `q`, and the hart schedules. */
  function Park(s: State, h: nat, q: QueueId, st: Status): State
    requires h in s.current
  {
    Schedule(Enqueue(SetStatus(s, s.current[h], st), q, s.current[h]), h)
  }

  /** The first hart from `h` on whose wait queue holds process `w`. */
  function WaitHart(s: State, w: nat, h: nat): Option<nat>
    decreases s.harts - h
  {
    if h >= s.harts then None
    else if w in Queue(s, Waiting(h)) then Some(h)
    else WaitHart(s, w, h + 1)
  }

  /** A queue without its first occurrence of `p`. */
  function Drop(q: seq<nat>, p: nat): seq<nat> {
    if q == [] then [] else if q[0] == p then q[1..] else [q[0]] + Drop(q[1..], p)
  }

  // ---------------------------------------------------------------- steps

  /** wake_from_block_queue over the wait queues: the process becomes ready on the hart it waits on. */
  function WakeWaiter(s: State, w: nat): State {
    match WaitHart(s, w, 0)
    case None => s
    case Some(k) =>
      var out := s.(queues := s.queues[Waiting(k) := Drop(Queue(s, Waiting(k)), w)]);
      Enqueue(SetStatus(out, w, READY), Ready(k), w)
  }

  /** The parent of an exiting process wakes up, if it waits. */
  function WakeParent(s: State, p: nat): State {
    if p in s.parent then WakeWaiter(s, s.parent[p]) else s
  }

  /** sys_user_exit, as far as the queues go. */
  function ExitStep(s: State, h: nat): State
    requires h in s.current
  {
    Schedule(WakeParent(SetStatus(s, s.current[h], ZOMBIE), s.current[h]), h)
  }

  /** semaphore_P */
  function PStep(s: State, h: nat, i: nat): State
    requires h in s.current && i < |s.sems|
  {
    var s' := s.(sems := s.sems[i := s.sems[i] - 1]);
    if s'.sems[i] < 0 then Park(s', h, Sem(i), BLOCKED) else s'
  }

  /** semaphore_V; None is the panic "no process to wake up". */
  function VStep(s: State, h: nat, i: nat): Option<State>
    requires i < |s.sems|
  {
    var s' := s.(sems := s.sems[i := s.sems[i] + 1]);
    if s'.sems[i] > 0 then Some(s')
    else
      var q := Queue(s, Sem(i));
      if q == [] then None
      else Some(Enqueue(SetStatus(s'.(queues := s.queues[Sem(i) := q[1..]]), q[0], READY), Ready(h), q[0]))
  }

  /** rrsched */
  function TickStep(s: State, h: nat): State
    requires h in s.current
  {
    var p := s.current[h];
    if TicksOf(s, p) + 1 >= TIME_SLICE_LEN then Park(s.(ticks := s.ticks[p := 0]), h, Ready(h), READY)
    else s.(ticks := s.ticks[p := TicksOf(s, p) + 1])
  }

  predicate Enabled(s: State, e: Event) {
    match e
    case Load(c, target) => StatusOf(s, c) == FREE && target < s.harts
    case Dispatch(h) => h < s.harts && h !in s.current && Queue(s, Ready(h)) != []
    case Yield(h) => h in s.current
    case Tick(h) => h in s.current
    case Fork(h, c, target) => h in s.current && StatusOf(s, c) == FREE && target < s.harts
    case Wait(h) => h in s.current
    case Reap(h, c) => h in s.current && StatusOf(s, c) == ZOMBIE
    case Exit(h) => h in s.current
    case SemNew(_) => true
    case SemP(h, i) => h in s.current && i < |s.sems|
    case SemV(h, i) => h in s.current && i < |s.sems| && VStep(s, h, i).Some?
  }

  function Step(s: State, e: Event): State
    requires Enabled(s, e)
  {
    match e
    case Load(c, target) => Enqueue(SetStatus(s.(parent := s.parent - {c}), c, READY), Ready(target), c)
    case Dispatch(h) => Schedule(s, h)
    case Yield(h) => Park(s, h, Ready(h), READY)
    case Tick(h) => TickStep(s, h)
    case Fork(h, c, target) =>
      Enqueue(SetStatus(s.(parent := s.parent[c := s.current[h]]), c, READY), Ready(target), c)
    case Wait(h) => Park(s, h, Waiting(h), BLOCKED)
    case Reap(h, c) => SetStatus(s, c, FREE)
    case Exit(h) => ExitStep(s, h)
    case SemNew(v) =>
      s.(sems := s.sems + [v], queues := s.queues[Sem(|s.sems|) := []])
    case SemP(h, i) => PStep(s, h, i)
    case SemV(h, i) => VStep(s, h, i).value
  }

  /** The state after a run, if every step of it was enabled. */
  function Exec(s: State, run: seq<Event>): Option<State>
    decreases |run|
  {
    if run == [] then Some(s)
    else if Enabled(s, run[0]) then Exec(Step(s, run[0]), run[1..])
    else None
  }

  /** After init_proc_pool: every process is FREE, every queue is empty, nobody runs. */
  ghost predicate Boot(s: State) {
    && s.current == map[] && s.sems == [] && s.parent == map[] && s.ticks == map[]
    && (forall p :: p in s.status ==> s.status[p] == FREE)
    && (forall q :: q in s.queues ==> s.queues[q] == [] && !q.Sem?)
  }

  // ---------------------------------------------------------------- one place for every process

  /** The kinds of queue a READY and a BLOCKED process belong on. */
  function QueueStatus(q: QueueId): Status {
    if q.Ready? then READY else BLOCKED
  }

  ghost predicate OnQueue(s: State, p: nat, q: QueueId) {
    q in s.queues && p in s.queues[q]
  }

  /** A READY process is on exactly one ready queue, a BLOCKED one on exactly one block queue, a
      RUNNING one is current on exactly one hart; nobody else is on a queue or current. */
  ghost predicate PlacesOk(s: State) {
    && (forall q :: q in s.queues ==> NoDuplicates(s.queues[q]))
    && (forall p, q {:trigger OnQueue(s, p, q)} :: OnQueue(s, p, q) ==> StatusOf(s, p) == QueueStatus(q))
    && (forall p, q, q' {:trigger OnQueue(s, p, q), OnQueue(s, p, q')} :: OnQueue(s, p, q) && OnQueue(s, p, q') ==>
        q == q')
    && (forall p {:trigger StatusOf(s, p)} :: StatusOf(s, p) == READY || StatusOf(s, p) == BLOCKED ==>
          exists q :: OnQueue(s, p, q))
    && (forall h :: h in s.current ==> h < s.harts && StatusOf(s, s.current[h]) == RUNNING)
    && (forall h, k :: h in s.current && k in s.current && s.current[h] == s.current[k] ==> h == k)
    && (forall p {:trigger StatusOf(s, p)} :: StatusOf(s, p) == RUNNING ==>
        exists h :: h in s.current && s.current[h] == p)
  }

  ghost predicate TicksOk(s: State) {
    forall p :: p in s.ticks ==> s.ticks[p] < TIME_SLICE_LEN
  }

  /** Each semaphore has its queue. */
  ghost predicate SemsOk(s: State) {
    && (forall i :: 0 <= i < |s.sems| ==> Sem(i) in s.queues)
    && (forall q :: q in s.queues && q.Sem? ==> q.id < |s.sems|)
  }

  ghost predicate Inv(s: State) {
    PlacesOk(s) && TicksOk(s) && SemsOk(s)
  }
}
