/** Copy-on-write seen from the processes: sharing is invisible over whole runs. */
module CowRefinement {
  import opened Basics
  import opened CopyOnWrite

  /** What a user load of process `p` at `va` returns; None is a fault. */
  function Read(m: Machine, p: nat, va: nat): Option<Byte> {
    var k := Slot(p, va / PGSIZE);
    if k in m.heaps && m.heaps[k].frame < |m.frames| then Some(m.frames[m.heaps[k].frame][va % PGSIZE]) else None
  }

  /** What private heaps would give: the byte `p` last stored at `va`, or inherited at its fork,
      or found in the page when its heap grew over it. */
  ghost function Expected(run: seq<Event>, p: nat, va: nat): Option<Byte>
    decreases |run|
  {
    if run == [] then None else
      var earlier := run[..|run| - 1];
      match run[|run| - 1]
      case Grow(q, v, found) =>
        if q == p && v == va / PGSIZE then Some(found[va % PGSIZE]) else Expected(earlier, p, va)
      case Fork(parent, child) => Expected(earlier, if p == child then parent else p, va)
      case Store(q, a, b) => if q == p && a == va then Some(b) else Expected(earlier, p, va)
      case Unmap(k) => if k == Slot(p, va / PGSIZE) then None else Expected(earlier, p, va)
      case _ => Expected(earlier, p, va)
  }

  lemma ReadAfterGrow(m: Machine, q: nat, v: nat, found: Page, p: nat, va: nat)
    requires Inv(m) && Enabled(m, Grow(q, v, found))
    ensures Read(Step(m, Grow(q, v, found)), p, va) ==
            if q == p && v == va / PGSIZE then Some(found[va % PGSIZE]) else Read(m, p, va)
  {
  }

  lemma ReadAfterFork(m: Machine, parent: nat, child: nat, p: nat, va: nat)
    requires Inv(m) && Enabled(m, Fork(parent, child))
    ensures Read(Step(m, Fork(parent, child)), p, va) == Read(m, if p == child then parent else p, va)
  {
    hide Counted, FreeListOk;
    var m', v := Step(m, Fork(parent, child)), va / PGSIZE;
    ForkKeepsInv(m, parent, child);
    assert m'.frames == m.frames by {
      assert forall k :: k in m.heaps ==> EntryOk(m, k);
      ForkPagesShare(m, parent, child, m.tops[parent]);
    }
    hide SharedBelow, ForkPages;
    SharedBelowAt(m.heaps, parent, child, m.tops[parent], Slot(p, v));
    assert Slot(parent, v) in m.heaps ==> EntryOk(m, Slot(parent, v));
  }

  lemma ReadAfterStore(m: Machine, q: nat, a: nat, b: Byte, p: nat, va: nat)
    requires Inv(m) && Enabled(m, Store(q, a, b))
    ensures Read(Step(m, Store(q, a, b)), p, va) == if q == p && a == va then Some(b) else Read(m, p, va)
  {
    var k, l := Slot(q, a / PGSIZE), Slot(p, va / PGSIZE);
    assert EntryOk(m, k);
    MappedIsCounted(m, k);
    if l in m.heaps && m.heaps[l].frame == m.heaps[k].frame {
      SoleMapper(m, k, l);
    }
  }

  lemma ReadAfterFault(m: Machine, k: Slot, p: nat, va: nat)
    requires Inv(m) && Enabled(m, StoreFault(k))
    ensures Read(Step(m, StoreFault(k)), p, va) == Read(m, p, va)
  {
    var l := Slot(p, va / PGSIZE);
    MappedIsCounted(m, k);
    if l in m.heaps {
      assert EntryOk(m, l);
      MappedIsCounted(m, l);
    }
    if m.refs[m.heaps[k].frame] > 1 {
      assert m.free[0] in m.free;
      CopyEffect(m, k);
    }
  }

  lemma ReadAfterOther(m: Machine, e: Event, p: nat, va: nat)
    requires Inv(m) && Enabled(m, e)
    requires e.Unmap? || e.KernelAlloc? || e.KernelFree? || e.KernelWrite?
    ensures Read(Step(m, e), p, va) == if e.Unmap? && e.slot == Slot(p, va / PGSIZE) then None else Read(m, p, va)
  {
    var l := Slot(p, va / PGSIZE);
    if l in m.heaps {
      assert EntryOk(m, l);
      MappedIsCounted(m, l);
    }
  }

  lemma {:induction false} BootIsInv(m: Machine)
    requires Boot(m)
    ensures Inv(m)
  {
    forall f | 0 <= f < |m.refs|
      ensures m.refs[f] == |Mappers(m.heaps, f)| + if f in m.kernel then 1 else 0
    {
      assert Mappers(m.heaps, f) == {};
    }
  }

  /** Every state of every run is consistent: a heap frame's count is the number of entries that
      map it, and a frame mapped twice is read-only everywhere. */
  lemma {:induction false} RunsKeepInv(m: Machine, run: seq<Event>)
    requires Boot(m) && Exec(m, run).Some?
    ensures Inv(Exec(m, run).value)
    decreases |run|
  {
    hide Inv, Step, Enabled;
    if run == [] {
      BootIsInv(m);
    } else {
      RunsKeepInv(m, run[..|run| - 1]);
      StepKeepsInv(Exec(m, run[..|run| - 1]).value, run[|run| - 1]);
    }
  }

  /** Copy-on-write refines eager copying: in every state of every run each process reads, at
      every heap address, what it last stored or inherited. */
  lemma {:induction false} ReadsAreExpected(m: Machine, run: seq<Event>, p: nat, va: nat)
    requires Boot(m) && Exec(m, run).Some?
    ensures Read(Exec(m, run).value, p, va) == Expected(run, p, va)
    decreases |run|
  {
    if run != [] {
      var earlier, e := run[..|run| - 1], run[|run| - 1];
      var n := Exec(m, earlier).value;
      RunsKeepInv(m, earlier);
      ReadsAreExpected(m, earlier, p, va);
      hide Inv, Step, Enabled;
      match e
      case Grow(q, v, found) => ReadAfterGrow(n, q, v, found, p, va);
      case Fork(parent, child) =>
        ReadAfterFork(n, parent, child, p, va);
        ReadsAreExpected(m, earlier, parent, va);
      case Store(q, a, b) => ReadAfterStore(n, q, a, b, p, va);
      case StoreFault(k) => ReadAfterFault(n, k, p, va);
      case _ => ReadAfterOther(n, e, p, va);
    }
  }

  /** In every state of every run: exact counts, read-only sharing, writable only when private. */
  lemma SharingIsReadOnly(m: Machine, run: seq<Event>, k: Slot, l: Slot)
    requires Boot(m) && Exec(m, run).Some?
    requires k in Exec(m, run).value.heaps && l in Exec(m, run).value.heaps
    ensures var n := Exec(m, run).value;
            var f := n.heaps[k].frame;
            && f < |n.refs| && n.refs[f] == |Mappers(n.heaps, f)|
            && (n.heaps[k].writable ==> n.refs[f] == 1)
            && (k != l && n.heaps[l].frame == f ==> n.refs[f] > 1 && n.heaps[k].cow && !n.heaps[k].writable)
  {
    RunsKeepInv(m, run);
    var n := Exec(m, run).value;
    hide Exec, FreeListOk;
    assert EntryOk(n, k) && EntryOk(n, l);
    MappedIsCounted(n, k);
    if k != l && n.heaps[l].frame == n.heaps[k].frame && n.refs[n.heaps[k].frame] == 1 {
      SoleMapper(n, k, l);
    }
  }

  /** A store to a heap page of any reachable state needs at most one fault: the fault is handled,
      and then the store can go ahead. */
  lemma FaultThenStore(m: Machine, p: nat, va: nat, b: Byte)
    requires Inv(m) && Slot(p, va / PGSIZE) in m.heaps && m.free != []
    ensures Enabled(m, Store(p, va, b)) || Enabled(m, StoreFault(Slot(p, va / PGSIZE)))
    ensures Enabled(m, StoreFault(Slot(p, va / PGSIZE))) ==>
              Enabled(Step(m, StoreFault(Slot(p, va / PGSIZE))), Store(p, va, b))
  {
    var k := Slot(p, va / PGSIZE);
    assert forall l :: l in m.heaps ==> EntryOk(m, l);
    if m.heaps[k].cow {
      FaultKeepsInv(m, k);
      var m' := Step(m, StoreFault(k));
      assert forall l :: l in m'.heaps ==> EntryOk(m', l);
    }
  }

  // ---------------------------------------------------------------- which pages a process has

  /** How many pages the heap of `p` has grown by, counting for a forked process what its parent had. */
  ghost function Grown(run: seq<Event>, p: nat): nat
    decreases |run|
  {
    if run == [] then 0 else
      var earlier := run[..|run| - 1];
      match run[|run| - 1]
      case Grow(q, v, found) => Grown(earlier, p) + if q == p then 1 else 0
      case Fork(parent, child) => Grown(earlier, if p == child then parent else p)
      case _ => Grown(earlier, p)
  }

  /** Page `v` was taken from `p`, or from an ancestor before its fork, and has not been grown since. */
  ghost predicate Taken(run: seq<Event>, p: nat, v: nat)
    decreases |run|
  {
    run != [] &&
    var earlier := run[..|run| - 1];
    match run[|run| - 1]
    case Grow(q, u, found) => !(q == p && u == v) && Taken(earlier, p, v)
    case Fork(parent, child) => Taken(earlier, if p == child then parent else p, v)
    case Unmap(k) => k == Slot(p, v) || Taken(earlier, p, v)
    case _ => Taken(earlier, p, v)
  }

  lemma StepTops(m: Machine, e: Event, p: nat)
    requires Enabled(m, e) && p < |m.tops|
    ensures var m' := Step(m, e);
            && |m'.tops| == |m.tops|
            && m'.tops[p] ==
                 match e
                 case Grow(q, v, found) => (if q == p then m.tops[p] + 1 else m.tops[p])
                 case Fork(parent, child) => m.tops[if p == child then parent else p]
                 case _ => m.tops[p]
  {
    hide ForkPages;
  }

  /** The top of every heap is where its growth, its own and inherited, has brought it. */
  lemma {:induction false} TopsAreGrown(m: Machine, run: seq<Event>, p: nat)
    requires Boot(m) && Exec(m, run).Some? && p < |m.tops|
    ensures var n := Exec(m, run).value; |n.tops| == |m.tops| && n.tops[p] == HEAP_BOTTOM + Grown(run, p)
    decreases |run|
  {
    hide Step;
    if run != [] {
      var earlier, e := run[..|run| - 1], run[|run| - 1];
      TopsAreGrown(m, earlier, p);
      StepTops(Exec(m, earlier).value, e, p);
      if e.Fork? {
        TopsAreGrown(m, earlier, e.parent);
      }
    }
  }

  lemma MappedIsRead(m: Machine, p: nat, v: nat)
    requires Inv(m)
    ensures Slot(p, v) in m.heaps <==> Read(m, p, v * PGSIZE).Some?
    ensures Slot(p, v) in m.heaps ==> p < |m.tops| && HEAP_BOTTOM <= v < m.tops[p]
  {
    hide Counted, FreeListOk;
    assert v * PGSIZE / PGSIZE == v;
    assert Slot(p, v) in m.heaps ==> EntryOk(m, Slot(p, v));
  }

  /** In every state of every run the pages of a process are exactly those from the bottom to the top of its
      heap that were not taken from it: growth leaves no gap, and fork leaves none out. */
  lemma {:induction false} HeapHasNoGaps(m: Machine, run: seq<Event>, p: nat, v: nat)
    requires Boot(m) && Exec(m, run).Some? && p < |m.tops|
    ensures Slot(p, v) in Exec(m, run).value.heaps <==>
              HEAP_BOTTOM <= v < HEAP_BOTTOM + Grown(run, p) && !Taken(run, p, v)
    decreases |run|
  {
    if run != [] {
      var earlier, e := run[..|run| - 1], run[|run| - 1];
      var n, n' := Exec(m, earlier).value, Exec(m, run).value;
      RunsKeepInv(m, earlier);
      RunsKeepInv(m, run);
      HeapHasNoGaps(m, earlier, p, v);
      TopsAreGrown(m, earlier, p);
      MappedIsRead(n, p, v);
      MappedIsRead(n', p, v);
      assert v * PGSIZE / PGSIZE == v;
      hide Inv, Step, Read;
      match e
      case Grow(q, u, found) =>
        ReadAfterGrow(n, q, u, found, p, v * PGSIZE);
      case Fork(parent, child) =>
        ReadAfterFork(n, parent, child, p, v * PGSIZE);
        HeapHasNoGaps(m, earlier, parent, v);
        MappedIsRead(n, parent, v);
      case Store(q, a, b) => ReadAfterStore(n, q, a, b, p, v * PGSIZE);
      case StoreFault(k) => ReadAfterFault(n, k, p, v * PGSIZE);
      case _ => ReadAfterOther(n, e, p, v * PGSIZE);
    }
  }
}
