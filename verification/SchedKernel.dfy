/** The scheduler routines as they relink queue_next (kernel/sched.c, kernel/semaphore.c,
    kernel/strap.c, kernel/syscall.c). One link field serves all queues; each routine is proved to
    be the corresponding step of the machine. */
module SchedKernel {
  import opened Basics
  import opened Chains
  import opened Sched
  import opened SchedLaws
  import opened SchedProofs

  const NULL: int := -1

  type Heads = map<QueueId, int>

  ghost predicate Chained(next: Links, head: Heads, queues: Queues, q: QueueId) {
    q in queues && q in head && Linked(next, NULL, head[q], queues[q]) && NoDuplicates(queues[q])
  }

  /** Every queue is a list through queue_next. */
  ghost predicate AllChained(next: Links, head: Heads, queues: Queues) {
    head.Keys == queues.Keys && forall q {:trigger Chained(next, head, queues, q)} :: q in queues ==>
        Chained(next, head, queues, q)
  }

  /** No process is on two queues. */
  ghost predicate Exclusive(queues: Queues) {
    forall q, q', p :: q in queues && q' in queues && p in queues[q] && p in queues[q'] ==> q == q'
  }

  /** The process is on no queue, except perhaps on `q`. */
  ghost predicate OnlyOn(queues: Queues, p: nat, q: QueueId) {
    forall k :: k in queues && k != q ==> p !in queues[k]
  }

  /** Relinking one queue, with processes that are on no other, leaves the others alone. */
  lemma RelinkKeeps(next: Links, next': Links, head: Heads, queues: Queues, q: QueueId, head': int, list': seq<nat>,
                    proc: nat)
    requires AllChained(next, head, queues) && Exclusive(queues) && q in queues && OnlyOn(queues, proc, q)
    requires Linked(next', NULL, head', list') && NoDuplicates(list')
    requires forall x :: x in list' ==> x in queues[q] || x == proc
    requires forall x :: x in next && x !in queues[q] && x != proc ==> x in next' && next'[x] == next[x]
    ensures AllChained(next', head[q := head'], queues[q := list']) && Exclusive(queues[q := list'])
  {
    var hs, qs := head[q := head'], queues[q := list'];
    forall k | k in qs
      ensures Chained(next', hs, qs, k)
    {
      if k != q {
        assert Chained(next, head, queues, k);
        LinkedHead(next, NULL, head[k], queues[k]);
        LinkedFrame(next, next', NULL, head[k], queues[k]);
      }
    }
  }

  class Kernel {
    const harts: nat
    var status: map<nat, Status>
    var parent: map<nat, nat>
    var ticks: map<nat, nat>
    var current: map<nat, nat>
    var sems: seq<int>
    var queueNext: Links
    var head: Heads
    ghost var queues: Queues

    ghost predicate Valid()
      reads this
    {
      AllChained(queueNext, head, queues) && Exclusive(queues)
    }

    ghost function View(): State
      reads this
    {
      State(harts, status, parent, ticks, queues, current, sems)
    }

    /** init_proc_pool and the static queue heads: the state in which the runs begin. */
    constructor (harts: nat)
      ensures Valid() && HasQueues() && Boot(View()) && this.harts == harts
    {
      this.harts := harts;
      status, parent, ticks, current, sems := map[], map[], map[], map[], [];
      queueNext, head, queues := map[], map[], map[];
      new;
      hide AllChained, Exclusive;
      NoQueues();
      var h := 0;
      while h < harts
        invariant 0 <= h <= harts && Valid() && Boot(View())
        invariant forall k :: 0 <= k < h ==> Ready(k) in queues && Waiting(k) in queues
        invariant forall q :: q in queues ==> q.Sem? || q.hart < h
      {
        NewQueueChains(queueNext, head, queues, Ready(h));
        head, queues := head[Ready(h) := NULL], queues[Ready(h) := []];
        NewQueueChains(queueNext, head, queues, Waiting(h));
        head, queues := head[Waiting(h) := NULL], queues[Waiting(h) := []];
        h := h + 1;
      }
    }

    /** The scan of both insert routines: the last process of a non-empty queue, or `proc` itself. */
    method FindTail(q: QueueId, proc: nat) returns (p: int)
      requires q in queues && Chained(queueNext, head, queues, q) && queues[q] != []
      ensures proc in queues[q] <==> p == proc
      ensures p == proc || p == queues[q][|queues[q]| - 1]
    {
      hide Linked, NoDuplicates;
      ghost var list := queues[q];
      LinkedHead(queueNext, NULL, head[q], list);
      p := head[q];
      ghost var k := 0;
      LinkedCursor(queueNext, NULL, head[q], list, 0);
      while queueNext[p] != NULL
        invariant 0 <= k < |list| && p == list[k] && p in queueNext
        invariant queueNext[p] == NULL <==> k + 1 == |list|
        invariant proc !in list[..k]
        decreases |list| - k
      {
        if p == proc {
          return;
        }
        assert list[..k + 1] == list[..k] + [list[k]];
        LinkedCursor(queueNext, NULL, head[q], list, k);
        p := queueNext[p];
        k := k + 1;
        LinkedCursor(queueNext, NULL, head[q], list, k);
      }
      assert list == list[..k] + [list[k]];
    }

    /** The list code shared by insert_to_specific_ready_queue and insert_to_block_queue: look the
        process up, and append it if it is not there. */
    method Append(q: QueueId, proc: nat) returns (already: bool)
      requires Valid() && q in queues && OnlyOn(queues, proc, q)
      modifies this`queueNext, this`head, this`queues
      ensures Valid()
      ensures already <==> proc in old(queues)[q]
      ensures queues == if already then old(queues) else old(queues)[q := old(queues)[q] + [proc]]
    {
      hide Linked, NoDuplicates, AllChained, Exclusive, OnlyOn;
      ghost var list := queues[q];
      assert Chained(queueNext, head, queues, q) by { ChainedAt(queueNext, head, queues, q); }
      LinkedHead(queueNext, NULL, head[q], list);
      if head[q] == NULL {
        LinkedPush(queueNext, NULL, NULL, [], proc);
        assert [proc] + [] == [proc] && list + [proc] == [proc];
        queueNext := queueNext[proc := NULL];
        SingletonHasNoDuplicates(proc);
        RelinkKeeps(old(queueNext), queueNext, head, queues, q, proc, list + [proc], proc);
        head := head[q := proc];
      } else {
        var p := FindTail(q, proc);
        if p == proc {
          return true;
        }
        LinkedInsert(queueNext, NULL, head[q], list, |list| - 1, proc);
        NoDuplicatesInserted(list, |list|, proc);
        assert Inserted(list, |list|, proc) == list + [proc];
        assert p in list;
        queueNext := queueNext[p := proc];
        queueNext := queueNext[proc := NULL];
        RelinkKeeps(old(queueNext), queueNext, head, queues, q, head[q], list + [proc], proc);
        assert head[q := head[q]] == head;
      }
      queues := queues[q := list + [proc]];
      already := false;
    }

    /** remove_from_block_queue; wake_from_block_queue searches the same way, by pid. */
    method RemoveFrom(q: QueueId, proc: int) returns (found: bool, ghost i: nat)
      requires Valid() && q in queues
      modifies this`queueNext, this`head, this`queues
      ensures Valid()
      ensures found <==> proc in old(queues)[q]
      ensures found ==>
                i < |old(queues)[q]| && old(queues)[q][i] == proc
                && queues == old(queues)[q := Without(old(queues)[q], i)]
      ensures !found ==> queues == old(queues)
    {
      hide Linked, NoDuplicates, AllChained, Exclusive;
      ghost var list := queues[q];
      assert Chained(queueNext, head, queues, q) by { ChainedAt(queueNext, head, queues, q); }
      LinkedHead(queueNext, NULL, head[q], list);
      LinkedCursor(queueNext, NULL, head[q], list, 0);
      var prev, p := NULL, head[q];
      i := 0;
      while p != NULL && p != proc
        invariant queues == old(queues) && head == old(head) && queueNext == old(queueNext)
        invariant 0 <= i <= |list| && p == Chains.At(list, i, NULL) && (p == NULL <==> i == |list|)
        invariant prev == if i == 0 then NULL else list[i - 1]
        invariant proc !in list[..i]
        decreases |list| - i
      {
        LinkedCursor(queueNext, NULL, head[q], list, i);
        assert list[..i + 1] == list[..i] + [list[i]];
        prev, p := p, queueNext[p];
        i := i + 1;
        LinkedCursor(queueNext, NULL, head[q], list, i);
      }
      if p == NULL {
        assert list[..i] == list;
        return false, i;
      }
      found := true;
      Cut(q, prev, proc, i);
    }

    /** Unlinking the process at position `i` of a queue. */
    method Cut(q: QueueId, prev: int, p: int, ghost i: nat)
      requires Valid() && q in queues && i < |queues[q]| && p == queues[q][i]
      requires prev == if i == 0 then NULL else queues[q][i - 1]
      modifies this`queueNext, this`head, this`queues
      ensures Valid() && queues == old(queues)[q := Without(old(queues)[q], i)]
    {
      hide Linked, NoDuplicates, AllChained, Exclusive;
      ghost var list := queues[q];
      ghost var rest := Without(list, i);
      assert rest == Without(list, i);
      assert Chained(queueNext, head, queues, q) by { ChainedAt(queueNext, head, queues, q); }
      LinkedHead(queueNext, NULL, head[q], list);
      NoDuplicatesWithout(list, i);
      ghost var first;
      assert i > 0 ==> list[i - 1] in list;
      if prev == NULL {
        LinkedTail(queueNext, NULL, head[q], list);
        assert rest == list[1..];
        head := head[q := queueNext[p]];
        first := queueNext[p];
      } else {
        LinkedRemove(queueNext, NULL, head[q], list, i - 1);
        assert prev in list && p in list;
        queueNext := queueNext[prev := queueNext[p]];
        first := head[q];
      }
      ghost var links := queueNext;
      queueNext := queueNext[p := NULL];
      LinkedFrame(links, queueNext, NULL, first, rest);
      SubsetOnly(queues, q, list[i]);
      RelinkKeeps(old(queueNext), queueNext, old(head), queues, q, first, rest, list[i]);
      assert head == old(head)[q := first];
      queues := queues[q := rest];
    }

    /** The queues of all harts and semaphores exist. */
    ghost predicate HasQueues()
      reads this
    {
      && (forall h :: 0 <= h < harts ==> Ready(h) in queues && Waiting(h) in queues)
      && (forall i :: 0 <= i < |sems| ==> Sem(i) in queues)
    }

    /** insert_to_specific_ready_queue */
    method InsertToReadyQueue(proc: nat, target: nat)
      requires Valid() && Ready(target) in queues && OnlyOn(queues, proc, Ready(target))
      modifies this`queueNext, this`head, this`queues, this`status
      ensures Valid()
      ensures if proc in old(queues)[Ready(target)] then queues == old(queues) && status == old(status)
              else queues == old(queues)[Ready(target) := old(queues)[Ready(target)] + [proc]] &&
                   status == if proc in old(status) && old(status)[proc] == ZOMBIE then old(status)
                             else old(status)[proc := READY]
    {
      var already := Append(Ready(target), proc);
      if !already && !(proc in status && status[proc] == ZOMBIE) {
        status := status[proc := READY];
      }
    }

    /** insert_to_block_queue */
    method InsertToBlockQueue(q: QueueId, proc: nat)
      requires Valid() && q in queues && OnlyOn(queues, proc, q)
      modifies this`queueNext, this`head, this`queues, this`status
      ensures Valid()
      ensures if proc in old(queues)[q] then queues == old(queues) && status == old(status)
              else queues == old(queues)[q := old(queues)[q] + [proc]] && status == old(status)[proc := BLOCKED]
    {
      var already := Append(q, proc);
      if !already {
        status := status[proc := BLOCKED];
      }
    }

    /** schedule, with the wait for work of an idle hart cut out: the hart goes idle or takes the
        head of its ready queue. */
    method Dispatch(h: nat)
      requires Valid() && Ready(h) in queues
      modifies this`head, this`queues, this`status, this`current
      ensures Valid() && View() == Schedule(old(View()), h)
      ensures queues.Keys == old(queues.Keys)
    {
      hide Linked, NoDuplicates, AllChained, Exclusive;
      ghost var q := Ready(h);
      ghost var list := queues[q];
      assert Chained(queueNext, head, queues, q) by { ChainedAt(queueNext, head, queues, q); }
      LinkedHead(queueNext, NULL, head[q], list);
      if head[Ready(h)] == NULL {
        current := current - {h};
        return;
      }
      var p := head[Ready(h)];
      LinkedTail(queueNext, NULL, p, list);
      NoDuplicatesWithout(list, 0);
      assert Without(list, 0) == list[1..];
      SubsetOnly(queues, q, list[0]);
      RelinkKeeps(queueNext, queueNext, head, queues, q, queueNext[p], list[1..], list[0]);
      current := current[h := p];
      head := head[Ready(h) := queueNext[p]];
      queues := queues[q := list[1..]];
      status := status[p := RUNNING];
    }

    /** The common end of yield, tick, wait and P: the current process joins a queue, the hart
        schedules. */
    method ParkOn(h: nat, q: QueueId)
      requires Valid() && PlacesOk(View()) && HasQueues() && h in current && q in queues
      modifies this`queueNext, this`head, this`queues, this`status, this`current
      ensures Valid() && View() == Park(old(View()), h, q, QueueStatus(q)) && queues.Keys == old(queues.Keys)
    {
      hide AllChained, Exclusive, PlacesOk;
      var p := current[h];
      RunningIsOffQueues(View(), h);
      assert Ready(h) in queues by { RunningHart(View(), h); }
      status := status[p := QueueStatus(q)];
      if q.Ready? {
        InsertToReadyQueue(p, q.hart);
      } else {
        InsertToBlockQueue(q, p);
      }
      assert status == old(status)[p := QueueStatus(q)];
      Dispatch(h);
    }

    /** sys_user_yield */
    method YieldEntry(h: nat)
      requires Valid() && Inv(View()) && HasQueues() && h in current
      modifies this`queueNext, this`head, this`queues, this`status, this`current
      ensures Valid() && HasQueues() && View() == Step(old(View()), Yield(h))
    {
      assert Ready(h) in queues by { RunningHart(View(), h); }
      ParkOn(h, Ready(h));
    }

    /** rrsched */
    method Rrsched(h: nat)
      requires Valid() && Inv(View()) && HasQueues() && h in current
      modifies this`queueNext, this`head, this`queues, this`status, this`current, this`ticks
      ensures Valid() && HasQueues() && View() == Step(old(View()), Tick(h))
    {
      hide PlacesOk, AllChained, Exclusive;
      assert Ready(h) in queues by { RunningHart(View(), h); }
      var p := current[h];
      var t := if p in ticks then ticks[p] else 0;
      if t + 1 >= TIME_SLICE_LEN {
        SamePlaces(View(), View().(ticks := ticks[p := 0]));
        ticks := ticks[p := 0];
        SemaphoresIgnoreTicks(old(View()), View());
        ParkOn(h, Ready(h));
      } else {
        ticks := ticks[p := t + 1];
      }
    }

    /** The common end of a wait that blocks. */
    method Block(h: nat)
      requires Valid() && Inv(View()) && HasQueues() && h in current
      modifies this`queueNext, this`head, this`queues, this`status, this`current
      ensures Valid() && HasQueues() && View() == Step(old(View()), Wait(h))
    {
      assert Waiting(h) in queues by { RunningHart(View(), h); }
      ParkOn(h, Waiting(h));
    }

    /** do_wait, with NPROC processes. With a process number it blocks if that is a child, whatever its
        state; with -1 it looks at the first child that is not FREE, and reaps it or blocks. The result
        is the child reaped, or -1. */
    method WaitEntry(h: nat, pid: int, procs: nat) returns (r: int)
      requires Valid() && Inv(View()) && HasQueues() && h in current
      modifies this`queueNext, this`head, this`queues, this`status, this`current
      ensures Valid() && HasQueues()
      ensures var s := old(View());
              match Waited(s, s.current[h], pid, procs)
              case Refused => View() == s && r == -1
              case Reaped(c) => Enabled(s, Reap(h, c)) && View() == Step(s, Reap(h, c)) && r == c
              case Blocks => View() == Step(s, Wait(h)) && r == -1
    {
      hide PlacesOk, AllChained, Exclusive, Park;
      var p := current[h];
      r := -1;
      if pid > 0 {
        if pid < procs && pid in parent && parent[pid] == p {
          Block(h);
        }
      } else if pid == -1 {
        var c := 0;
        while c < procs && !(c in parent && parent[c] == p && c in status && status[c] != FREE)
          invariant 0 <= c <= procs && View() == old(View())
          invariant FirstChild(View(), p, 0, procs) == FirstChild(View(), p, c, procs)
        {
          c := c + 1;
        }
        if c < procs {
          if status[c] == ZOMBIE {
            status := status[c := FREE];
            r := c;
          } else {
            Block(h);
          }
        }
      }
    }

    /** A process that is nowhere becomes ready on a hart. */
    method MakeReady(c: nat, target: nat)
      requires Valid() && PlacesOk(View()) && HasQueues() && target < harts && StatusOf(View(), c) == FREE
      modifies this`queueNext, this`head, this`queues, this`status
      ensures Valid() && HasQueues() && View() == Enqueue(SetStatus(old(View()), c, READY), Ready(target), c)
    {
      hide AllChained, Exclusive, PlacesOk;
      FreeIsOffQueues(View(), c);
      status := status[c := READY];
      InsertToReadyQueue(c, target);
      assert status == old(status)[c := READY];
    }

    /** s_start: a loaded program goes to its hart. */
    method LoadEntry(c: nat, target: nat)
      requires Valid() && Inv(View()) && HasQueues() && Enabled(View(), Load(c, target))
      modifies this`queueNext, this`head, this`queues, this`status, this`parent
      ensures Valid() && HasQueues() && View() == Step(old(View()), Load(c, target))
    {
      hide AllChained, Exclusive, PlacesOk;
      parent := parent - {c};
      SamePlaces(old(View()), View());
      MakeReady(c, target);
    }

    /** The end of do_fork: the child, with its parent, goes to a ready queue. */
    method ForkEntry(h: nat, c: nat, target: nat)
      requires Valid() && Inv(View()) && HasQueues() && Enabled(View(), Fork(h, c, target))
      modifies this`queueNext, this`head, this`queues, this`status, this`parent
      ensures Valid() && HasQueues() && View() == Step(old(View()), Fork(h, c, target))
    {
      hide AllChained, Exclusive, PlacesOk;
      parent := parent[c := current[h]];
      SamePlaces(old(View()), View());
      MakeReady(c, target);
    }

    /** sys_user_sem_new: a semaphore with nobody waiting. */
    method SemNewEntry(v: int) returns (i: nat)
      requires Valid() && Inv(View()) && HasQueues()
      modifies this`head, this`queues, this`sems
      ensures Valid() && HasQueues() && i == |old(sems)| && View() == Step(old(View()), SemNew(v))
    {
      i := |sems|;
      NewQueueChains(queueNext, head, queues, Sem(i));
      head := head[Sem(i) := NULL];
      queues := queues[Sem(i) := []];
      sems := sems + [v];
    }

    /** semaphore_P */
    method SemaphoreP(h: nat, i: nat)
      requires Valid() && Inv(View()) && HasQueues() && h in current && i < |sems|
      modifies this`queueNext, this`head, this`queues, this`status, this`current, this`sems
      ensures Valid() && HasQueues() && View() == Step(old(View()), SemP(h, i))
    {
      hide PlacesOk, AllChained, Exclusive, Park;
      sems := sems[i := sems[i] - 1];
      SamePlaces(old(View()), View());
      if sems[i] < 0 {
        ParkOn(h, Sem(i));
      }
    }

    /** Waking one process: off its block queue, READY, onto a ready queue. */
    method Wake(q: QueueId, w: int, h: nat) returns (found: bool, ghost i: nat)
      requires Valid() && PlacesOk(View()) && q in queues && !q.Ready? && Ready(h) in queues
      modifies this`queueNext, this`head, this`queues, this`status
      ensures Valid() && queues.Keys == old(queues.Keys)
      ensures found <==> w in old(queues)[q]
      ensures found ==>
                i < |old(queues)[q]| && old(queues)[q][i] == w
                && View() == Put(Take(old(View()), q, i), Ready(h), w)
      ensures !found ==> View() == old(View())
    {
      hide PlacesOk, AllChained, Exclusive;
      found, i := RemoveFrom(q, w);
      if !found {
        return;
      }
      WaiterLeft(old(View()), q, i);
      status := status[w := READY];
      InsertToReadyQueue(w, h);
      assert status == old(status)[w := FREE][w := READY];
    }

    /** semaphore_V; `ok` is false where the kernel panics. */
    method SemaphoreV(h: nat, i: nat) returns (ok: bool)
      requires Valid() && Inv(View()) && HasQueues() && h in current && i < |sems|
      modifies this`queueNext, this`head, this`queues, this`status, this`sems
      ensures ok <==> VStep(old(View()), h, i).Some?
      ensures ok ==> Valid() && HasQueues() && View() == VStep(old(View()), h, i).value
    {
      hide PlacesOk, AllChained, Exclusive, Linked, NoDuplicates;
      assert Ready(h) in queues by { RunningHart(View(), h); }
      sems := sems[i := sems[i] + 1];
      SamePlaces(old(View()), View());
      if sems[i] > 0 {
        return true;
      }
      ghost var list := queues[Sem(i)];
      assert Chained(queueNext, head, queues, Sem(i)) by { ChainedAt(queueNext, head, queues, Sem(i)); }
      LinkedHead(queueNext, NULL, head[Sem(i)], list);
      var w := head[Sem(i)];
      ghost var k;
      ok, k := Wake(Sem(i), w, h);
      if ok {
        FirstOccurrence(list, k);
        assert status == old(status)[w := READY];
      }
    }

    /** sys_user_exit, as far as the queues go. */
    method ExitEntry(h: nat)
      requires Valid() && Inv(View()) && HasQueues() && h in current
      modifies this`queueNext, this`head, this`queues, this`status, this`current
      ensures Valid() && HasQueues() && View() == Step(old(View()), Exit(h))
    {
      hide PlacesOk, AllChained, Exclusive, Schedule, WakeParent, SemsOk, TicksOk;
      RunningHart(View(), h);
      var p := current[h];
      RetireKeepsPlaces(View(), h);
      ghost var z := SetStatus(View(), p, ZOMBIE);
      current := current - {h};
      status := status[p := ZOMBIE];
      WakeIfParent(p);
      WaitHartIgnoresCurrent(z, z.current - {h}, p);
      WakeTail(z, p, h);
      ScheduleForgets(WakeParent(z, p), h);
      Dispatch(h);
    }

    method WakeIfParent(p: nat)
      requires Valid() && PlacesOk(View()) && HasQueues()
      modifies this`queueNext, this`head, this`queues, this`status
      ensures Valid() && queues.Keys == old(queues.Keys)
      ensures View() == WakeParent(old(View()), p)
    {
      if p in parent {
        WakeWaiting(parent[p]);
      }
    }

    /** The search of sys_user_exit over the wait queues of all harts. */
    method WakeWaiting(w: nat)
      requires Valid() && PlacesOk(View()) && HasQueues()
      modifies this`queueNext, this`head, this`queues, this`status
      ensures Valid() && queues.Keys == old(queues.Keys)
      ensures View() == WakeWaiter(old(View()), w)
    {
      hide PlacesOk, AllChained, Exclusive;
      var k := 0;
      while k < harts
        invariant 0 <= k <= harts
        invariant Valid() && View() == old(View())
        invariant WaitHart(View(), w, 0) == WaitHart(View(), w, k)
      {
        var found, i := Wake(Waiting(k), w, k);
        if found {
          DropIsWithout(old(View()), Waiting(k), w, i);
          assert status == old(status)[w := READY];
          return;
        }
        k := k + 1;
      }
    }
  }

  lemma DropIsWithout(s: State, q: QueueId, w: nat, i: nat)
    requires PlacesOk(s) && q in s.queues && i < |s.queues[q]| && s.queues[q][i] == w
    ensures Drop(s.queues[q], w) == Without(s.queues[q], i)
  {
    var j := DropRemoves(s.queues[q], w);
    assert NoDuplicates(s.queues[q]);
    assert i == j;
  }

  lemma FirstOccurrence(list: seq<nat>, k: nat)
    requires NoDuplicates(list) && k < |list| && list[k] == list[0]
    ensures k == 0 && Without(list, 0) == list[1..]
  {
  }

  /** A process taken off its queue is on no queue. */
  lemma WaiterLeft(s: State, q: QueueId, k: nat)
    requires PlacesOk(s) && q in s.queues && k < |s.queues[q]|
    ensures var p := s.queues[q][k];
            var qs := s.queues[q := Without(s.queues[q], k)];
            forall r :: r in qs ==> p !in qs[r]
  {
    TakeKeepsPlaces(s, q, k);
    var t, p := Take(s, q, k), s.queues[q][k];
    forall r | r in t.queues
      ensures p !in t.queues[r]
    {
      assert OnQueue(t, p, r) ==> StatusOf(t, p) == QueueStatus(r);
    }
  }

  lemma FreeIsOffQueues(s: State, p: nat)
    requires PlacesOk(s) && StatusOf(s, p) == FREE
    ensures forall q :: q in s.queues ==> p !in s.queues[q]
  {
    forall q | q in s.queues
      ensures p !in s.queues[q]
    {
      assert OnQueue(s, p, q) ==> StatusOf(s, p) == QueueStatus(q);
    }
  }

  lemma NoQueues()
    ensures AllChained(map[], map[], map[]) && Exclusive(map[])
  {
  }

  lemma NewQueueChains(next: Links, head: Heads, queues: Queues, q: QueueId)
    requires AllChained(next, head, queues) && Exclusive(queues) && q !in queues
    ensures AllChained(next, head[q := NULL], queues[q := []]) && Exclusive(queues[q := []])
  {
    var hs, qs := head[q := NULL], queues[q := []];
    forall k | k in qs
      ensures Chained(next, hs, qs, k)
    {
      assert k != q ==> Chained(next, head, queues, k);
    }
  }

  lemma RunningIsOffQueues(s: State, h: nat)
    requires PlacesOk(s) && h in s.current
    ensures forall q :: q in s.queues ==> s.current[h] !in s.queues[q]
  {
    forall q | q in s.queues
      ensures s.current[h] !in s.queues[q]
    {
      assert OnQueue(s, s.current[h], q) ==> StatusOf(s, s.current[h]) == QueueStatus(q);
    }
  }

  lemma RunningHart(s: State, h: nat)
    requires PlacesOk(s) && h in s.current
    ensures h < s.harts
  {
  }

  lemma SemaphoresIgnoreTicks(s: State, s': State)
    requires s' == s.(ticks := s'.ticks) && Inv(s) && TicksOk(s') && PlacesOk(s')
    ensures Inv(s')
  {
    assert SemsOk(s) && SameSems(s, s');
    SameSemsOk(s, s');
  }

  lemma SubsetOnly(queues: Queues, q: QueueId, p: nat)
    requires Exclusive(queues) && q in queues && p in queues[q]
    ensures OnlyOn(queues, p, q)
  {
  }

  lemma ChainedAt(next: Links, head: Heads, queues: Queues, q: QueueId)
    requires AllChained(next, head, queues) && q in queues
    ensures Chained(next, head, queues, q)
  {
  }

  lemma SingletonHasNoDuplicates(p: nat)
    ensures NoDuplicates([p])
  {
  }
}

