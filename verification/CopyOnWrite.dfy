/** Heap pages shared copy-on-write by forked processes (kernel/sched.c, kernel/strap.c,
    kernel/pmm.c, kernel/vmm.c).

    A machine holds one heap page table per process, the page reference counts, the list of
    free frames and the frame contents. Its events are the atomic kernel and user steps.
    The theorems at the end say that sharing frames cannot be observed: a process reads what it
    last stored or inherited, in every run. */
module CopyOnWrite {
  import opened Basics

  const PGSIZE: nat := 4096

  /** First heap page number: USER_FREE_ADDRESS_START / PGSIZE. */
  const HEAP_BOTTOM: nat := 1024

  newtype Byte = x: int | 0 <= x < 256

  type Page = s: seq<Byte> | |s| == PGSIZE witness seq(PGSIZE, i => 0)

  /** A valid heap leaf entry: its frame and its PTE_W and PTE_COW bits. */
  datatype Pte = Pte(frame: nat, writable: bool, cow: bool)

  /** A heap page of a process. */
  datatype Slot = Slot(pid: nat, vpn: nat)

  type Heaps = map<Slot, Pte>

  /** `heaps` joins the heap page tables of all processes; `tops` gives each process its heap_top
      (a page number); `kernel` holds the frames handed to page tables and other kernel uses. */
  datatype Machine = Machine(
    heaps: Heaps, tops: seq<nat>, refs: seq<nat>, free: seq<nat>, frames: seq<Page>, kernel: set<nat>)

  datatype Event =
    | Grow(pid: nat, vpn: nat, found: Page)
    | Fork(parent: nat, child: nat)
    | Store(pid: nat, va: nat, b: Byte)
    | StoreFault(slot: Slot)
    | Unmap(slot: Slot)
    | KernelAlloc
    | KernelFree(frame: nat)
    | KernelWrite(frame: nat, page: Page)

  // ---------------------------------------------------------------- page allocator

  /** alloc_page: the first free frame, with reference count 1. */
  function AllocFrame(m: Machine): Machine
    requires m.free != [] && m.free[0] < |m.refs|
  {
    m.(free := m.free[1..], refs := m.refs[m.free[0] := 1])
  }

  /** free_page: give up one reference; the last one pushes the frame on the free list. */
  function FreeFrame(m: Machine, f: nat): Machine
    requires f < |m.refs|
  {
    if m.refs[f] > 1 then m.(refs := m.refs[f := m.refs[f] - 1])
    else m.(refs := m.refs[f := 0], free := [f] + m.free)
  }

  // ---------------------------------------------------------------- steps

  function Shared(e: Pte): Pte {
    e.(writable := false, cow := true)
  }

  /** One iteration of the heap loop of do_fork. */
  function ForkPage(m: Machine, parent: nat, child: nat, v: nat): Machine
    requires Slot(parent, v) in m.heaps ==> m.heaps[Slot(parent, v)].frame < |m.refs|
  {
    if Slot(parent, v) !in m.heaps then m else
      var e := m.heaps[Slot(parent, v)];
      m.(refs := m.refs[e.frame := m.refs[e.frame] + 1],
         heaps := m.heaps[Slot(child, v) := Shared(e)][Slot(parent, v) := Shared(e)])
  }

  ghost predicate FramesInRange(m: Machine) {
    && |m.refs| == |m.frames|
    && forall k :: k in m.heaps ==> m.heaps[k].frame < |m.refs|
  }

  /** The heap loop of do_fork over the pages HEAP_BOTTOM .. v. */
  ghost function ForkPages(m: Machine, parent: nat, child: nat, v: nat): (m': Machine)
    requires FramesInRange(m) && HEAP_BOTTOM <= v
    ensures FramesInRange(m') && |m'.refs| == |m.refs|
    decreases v
  {
    if v == HEAP_BOTTOM then m
    else ForkPage(ForkPages(m, parent, child, v - 1), parent, child, v - 1)
  }

  /** The copy-on-write branch of handle_user_page_fault. */
  function BreakSharing(m: Machine, k: Slot): Machine
    requires k in m.heaps && |m.refs| == |m.frames| && m.heaps[k].frame < |m.refs|
    requires m.refs[m.heaps[k].frame] > 1 ==> m.free != [] && m.free[0] < |m.refs|
  {
    var e := m.heaps[k];
    if m.refs[e.frame] > 1 then
      var copy := m.free[0];
      var m1 := AllocFrame(m);
      var m2 := m1.(frames := m1.frames[copy := m1.frames[e.frame]],
                    refs := m1.refs[e.frame := if m1.refs[e.frame] > 0 then m1.refs[e.frame] - 1 else 0]);
      m2.(heaps := m2.heaps[k := Pte(copy, true, false)])
    else
      m.(heaps := m.heaps[k := Pte(e.frame, true, false)])
  }

  function Poke(m: Machine, f: nat, off: nat, b: Byte): Machine
    requires f < |m.frames| && off < PGSIZE
  {
    m.(frames := m.frames[f := m.frames[f][off := b]])
  }

  /** What the kernel and the hardware demand of a step: a mapped page for a memory access, a
      free frame when one is needed, and an empty address space for a forked child. */
  ghost predicate Enabled(m: Machine, e: Event) {
    && FramesInRange(m)
    && (m.free != [] ==> m.free[0] < |m.refs|)
    && match e
       case Grow(p, v, found) => p < |m.tops| && v == m.tops[p] && m.free != [] && m.frames[m.free[0]] == found
       case Fork(parent, child) =>
         && parent < |m.tops| && child < |m.tops| && parent != child
         && HEAP_BOTTOM <= m.tops[parent]
         && (forall k :: k in m.heaps ==> k.pid != child)
       case Store(p, va, b) =>
         Slot(p, va / PGSIZE) in m.heaps && m.heaps[Slot(p, va / PGSIZE)].writable
       case StoreFault(k) =>
         k in m.heaps && m.heaps[k].cow && (m.refs[m.heaps[k].frame] > 1 ==> m.free != [])
       case Unmap(k) => k in m.heaps
       case KernelAlloc => m.free != []
       case KernelFree(f) => f in m.kernel && f < |m.refs|
       case KernelWrite(f, page) => (f in m.kernel || f in m.free) && f < |m.frames|
  }

  ghost function Step(m: Machine, e: Event): Machine
    requires Enabled(m, e)
  {
    match e
    case Grow(p, v, found) =>
      AllocFrame(m).(heaps := m.heaps[Slot(p, v) := Pte(m.free[0], true, false)], tops := m.tops[p := v + 1])
    case Fork(parent, child) =>
      ForkPages(m, parent, child, m.tops[parent]).(tops := m.tops[child := m.tops[parent]])
    case Store(p, va, b) => Poke(m, m.heaps[Slot(p, va / PGSIZE)].frame, va % PGSIZE, b)
    case StoreFault(k) => BreakSharing(m, k)
    case Unmap(k) => FreeFrame(m, m.heaps[k].frame).(heaps := m.heaps - {k})
    case KernelAlloc => AllocFrame(m).(kernel := m.kernel + {m.free[0]})
    case KernelFree(f) => FreeFrame(m, f).(kernel := m.kernel - {f})
    case KernelWrite(f, page) => m.(frames := m.frames[f := page])
  }

  /** The machine reached from `m` by a run, if every event of the run was enabled. */
  ghost function Exec(m: Machine, run: seq<Event>): Option<Machine> {
    if run == [] then Some(m) else
      match Exec(m, run[..|run| - 1])
      case None => None
      case Some(m') => if Enabled(m', run[|run| - 1]) then Some(Step(m', run[|run| - 1])) else None
  }

  /** The machine after pmm_init: no heap pages, every frame on the free list once. */
  ghost predicate Boot(m: Machine) {
    && |m.refs| == |m.frames|
    && m.heaps == map[]
    && (forall p :: 0 <= p < |m.tops| ==> m.tops[p] == HEAP_BOTTOM)
    && (forall f :: 0 <= f < |m.refs| ==> m.refs[f] == 0 && f in m.free)
    && (forall i :: 0 <= i < |m.free| ==> m.free[i] < |m.refs|)
    && NoDuplicates(m.free)
    && m.kernel == {}
  }

  // ---------------------------------------------------------------- the invariant

  /** The heap entries, over all processes, that map frame `f`. */
  ghost function Mappers(heaps: Heaps, f: nat): set<Slot> {
    set k | k in heaps && heaps[k].frame == f
  }

  /** Reference counts are exact. */
  ghost predicate Counted(m: Machine) {
    forall f :: 0 <= f < |m.refs| ==>
      m.refs[f] == |Mappers(m.heaps, f)| + if f in m.kernel then 1 else 0
  }

  /** The free list holds exactly the frames without references, each once. */
  ghost predicate FreeListOk(refs: seq<nat>, free: seq<nat>) {
    && (forall i :: 0 <= i < |free| ==> free[i] < |refs|)
    && NoDuplicates(free)
    && (forall f :: 0 <= f < |refs| ==> (f in free <==> refs[f] == 0))
  }

  lemma PopKeepsFreeList(refs: seq<nat>, free: seq<nat>)
    requires FreeListOk(refs, free) && free != []
    ensures free[0] < |refs| && refs[free[0]] == 0
    ensures FreeListOk(refs[free[0] := 1], free[1..])
  {
    assert free == [free[0]] + free[1..];
    assert free[0] in free;
  }

  lemma PushKeepsFreeList(refs: seq<nat>, free: seq<nat>, f: nat)
    requires FreeListOk(refs, free) && f < |refs| && refs[f] > 0
    ensures FreeListOk(refs[f := 0], [f] + free)
  {
    assert f !in free;
  }

  lemma RecountKeepsFreeList(refs: seq<nat>, free: seq<nat>, f: nat, n: nat)
    requires FreeListOk(refs, free) && f < |refs| && refs[f] > 0 && n > 0
    ensures FreeListOk(refs[f := n], free)
  {
  }

  /** A frame with several references is mapped read-only and copy-on-write everywhere. */
  ghost predicate EntryOk(m: Machine, k: Slot)
    requires k in m.heaps
  {
    var e := m.heaps[k];
    && e.frame < |m.refs|
    && e.frame !in m.kernel
    && e.writable != e.cow
    && (m.refs[e.frame] > 1 ==> e.cow)
    && k.pid < |m.tops|
    && HEAP_BOTTOM <= k.vpn < m.tops[k.pid]
  }

  ghost predicate EntriesOk(m: Machine) {
    forall k :: k in m.heaps ==> EntryOk(m, k)
  }

  ghost predicate Inv(m: Machine) {
    && |m.refs| == |m.frames|
    && (forall p :: 0 <= p < |m.tops| ==> HEAP_BOTTOM <= m.tops[p])
    && (forall f :: f in m.kernel ==> f < |m.refs|)
    && FreeListOk(m.refs, m.free)
    && EntriesOk(m)
    && Counted(m)
  }

  function Maps(heaps: Heaps, k: Slot, f: nat): nat {
    if k in heaps && heaps[k].frame == f then 1 else 0
  }

  lemma MappersAfterPut(heaps: Heaps, k: Slot, e: Pte, f: nat)
    ensures |Mappers(heaps[k := e], f)| == |Mappers(heaps, f)| - Maps(heaps, k, f) + Maps(heaps[k := e], k, f)
  {
    var before, after := Mappers(heaps, f), Mappers(heaps[k := e], f);
    assert k in before <==> Maps(heaps, k, f) == 1;
    if e.frame == f {
      assert after == before + {k};
    } else {
      assert after == before - {k};
    }
  }

  lemma MappersAfterRemove(heaps: Heaps, k: Slot, f: nat)
    ensures |Mappers(heaps - {k}, f)| == |Mappers(heaps, f)| - Maps(heaps, k, f)
  {
    assert Mappers(heaps - {k}, f) == Mappers(heaps, f) - {k};
    assert k in Mappers(heaps, f) <==> Maps(heaps, k, f) == 1;
  }

  lemma MappedIsCounted(m: Machine, k: Slot)
    requires Inv(m) && k in m.heaps
    ensures m.refs[m.heaps[k].frame] >= 1
    ensures m.heaps[k].frame !in m.free
  {
    assert EntryOk(m, k);
    assert k in Mappers(m.heaps, m.heaps[k].frame);
  }

  /** A frame with one reference has at most one mapper. */
  lemma SoleMapper(m: Machine, k: Slot, l: Slot)
    requires Inv(m) && k in m.heaps && l in m.heaps && m.heaps[k].frame == m.heaps[l].frame
    requires m.refs[m.heaps[k].frame] == 1
    ensures k == l
  {
    assert EntryOk(m, k);
    var s := Mappers(m.heaps, m.heaps[k].frame);
    assert k in s && l in s;
    assert |s - {k}| == 0;
  }

  // ---------------------------------------------------------------- every step keeps it

  lemma GrowKeepsCounted(m: Machine, p: nat, v: nat, found: Page)
    requires Inv(m) && Enabled(m, Grow(p, v, found))
    ensures Counted(Step(m, Grow(p, v, found)))
  {
    var m' := Step(m, Grow(p, v, found));
    var k, e := Slot(p, v), Pte(m.free[0], true, false);
    PopKeepsFreeList(m.refs, m.free);
    assert k !in m.heaps by {
      assert k in m.heaps ==> EntryOk(m, k);
    }
    hide FreeListOk, EntriesOk;
    forall f | 0 <= f < |m'.refs|
      ensures m'.refs[f] == |Mappers(m'.heaps, f)| + if f in m'.kernel then 1 else 0
    {
      MappersAfterPut(m.heaps, k, e, f);
    }
  }

  lemma GrowKeepsInv(m: Machine, p: nat, v: nat, found: Page)
    requires Inv(m) && Enabled(m, Grow(p, v, found))
    ensures Inv(Step(m, Grow(p, v, found)))
  {
    var m' := Step(m, Grow(p, v, found));
    var k := Slot(p, v);
    PopKeepsFreeList(m.refs, m.free);
    GrowKeepsCounted(m, p, v, found);
    hide Counted, FreeListOk;
    forall l | l in m'.heaps
      ensures EntryOk(m', l)
    {
      if l != k {
        assert EntryOk(m, l);
        MappedIsCounted(m, l);
      }
    }
  }

  lemma ForkPageKeepsCounted(m: Machine, parent: nat, child: nat, v: nat)
    requires Inv(m) && parent != child && Slot(parent, v) in m.heaps && Slot(child, v) !in m.heaps
    requires m.heaps[Slot(parent, v)].frame < |m.refs|
    ensures Counted(ForkPage(m, parent, child, v))
  {
    hide FreeListOk, EntriesOk;
    var k, l, m' := Slot(parent, v), Slot(child, v), ForkPage(m, parent, child, v);
    var e := m.heaps[k];
    forall f | 0 <= f < |m'.refs|
      ensures m'.refs[f] == |Mappers(m'.heaps, f)| + if f in m'.kernel then 1 else 0
    {
      MappersAfterPut(m.heaps, l, Shared(e), f);
      MappersAfterPut(m.heaps[l := Shared(e)], k, Shared(e), f);
    }
  }

  lemma ForkPageKeepsEntries(m: Machine, parent: nat, child: nat, v: nat)
    requires Inv(m) && parent != child && child < |m.tops| && parent < |m.tops|
    requires Slot(parent, v) in m.heaps && Slot(child, v) !in m.heaps && m.tops[child] >= m.tops[parent]
    requires m.heaps[Slot(parent, v)].frame < |m.refs|
    ensures EntriesOk(ForkPage(m, parent, child, v))
  {
    hide FreeListOk;
    var k, l, m' := Slot(parent, v), Slot(child, v), ForkPage(m, parent, child, v);
    var e := m.heaps[k];
    assert EntryOk(m, k);
    MappedIsCounted(m, k);
    forall j | j in m'.heaps
      ensures EntryOk(m', j)
    {
      if j != k && j != l {
        assert EntryOk(m, j);
        if m.heaps[j].frame == e.frame && m.refs[e.frame] == 1 {
          SoleMapper(m, k, j);
        }
      }
    }
  }

  lemma ForkPageKeepsInv(m: Machine, parent: nat, child: nat, v: nat)
    requires Inv(m) && parent != child && child < |m.tops| && parent < |m.tops|
    requires Slot(child, v) !in m.heaps && m.tops[child] >= m.tops[parent]
    requires Slot(parent, v) in m.heaps ==> m.heaps[Slot(parent, v)].frame < |m.refs|
    ensures Inv(ForkPage(m, parent, child, v))
  {
    var k := Slot(parent, v);
    if k in m.heaps {
      ForkPageKeepsCounted(m, parent, child, v);
      ForkPageKeepsEntries(m, parent, child, v);
      MappedIsCounted(m, k);
      hide FreeListOk, Counted, EntriesOk;
      RecountKeepsFreeList(m.refs, m.free, m.heaps[k].frame, m.refs[m.heaps[k].frame] + 1);
    }
  }

  /** The heap tables when the parent's pages below `v` have been shared with the child. */
  ghost function SharedBelow(heaps: Heaps, parent: nat, child: nat, v: nat): Heaps {
    (map k | k in heaps :: if k.pid == parent && k.vpn < v then Shared(heaps[k]) else heaps[k]) +
    (map w | 0 <= w < v && Slot(parent, w) in heaps :: Slot(child, w) := Shared(heaps[Slot(parent, w)]))
  }

  lemma SharedBelowAt(heaps: Heaps, parent: nat, child: nat, v: nat, k: Slot)
    requires parent != child && forall k :: k in heaps ==> k.pid != child
    ensures var s := SharedBelow(heaps, parent, child, v);
            if k.pid == child then
              && (k in s <==> k.vpn < v && Slot(parent, k.vpn) in heaps)
              && (k in s ==> s[k] == Shared(heaps[Slot(parent, k.vpn)]))
            else
              && (k in s <==> k in heaps)
              && (k in s ==> s[k] == if k.pid == parent && k.vpn < v then Shared(heaps[k]) else heaps[k])
  {
    if k.pid == child && k.vpn < v && Slot(parent, k.vpn) in heaps {
      assert k == Slot(child, k.vpn);
    }
  }

  lemma SharedBelowNext(heaps: Heaps, parent: nat, child: nat, v: nat)
    requires parent != child && forall k :: k in heaps ==> k.pid != child
    ensures SharedBelow(heaps, parent, child, v + 1) ==
            if Slot(parent, v) !in heaps then SharedBelow(heaps, parent, child, v)
            else var e := heaps[Slot(parent, v)];
                 SharedBelow(heaps, parent, child, v)[Slot(child, v) := Shared(e)][Slot(parent, v) := Shared(e)]
  {
    hide SharedBelow;
    var now, next := SharedBelow(heaps, parent, child, v), SharedBelow(heaps, parent, child, v + 1);
    var goal := if Slot(parent, v) !in heaps then now
                else var e := heaps[Slot(parent, v)]; now[Slot(child, v) := Shared(e)][Slot(parent, v) := Shared(e)];
    forall k
      ensures (k in next <==> k in goal) && (k in next ==> next[k] == goal[k])
    {
      SharedBelowAt(heaps, parent, child, v, k);
      SharedBelowAt(heaps, parent, child, v + 1, k);
    }
    assert next == goal;
  }

  lemma SharedBelowBottom(heaps: Heaps, parent: nat, child: nat, v: nat)
    requires parent != child && forall k :: k in heaps ==> k.pid != child && v <= k.vpn
    ensures SharedBelow(heaps, parent, child, v) == heaps
  {
    hide SharedBelow;
    forall k
      ensures var s := SharedBelow(heaps, parent, child, v);
              (k in s <==> k in heaps) && (k in s ==> s[k] == heaps[k])
    {
      SharedBelowAt(heaps, parent, child, v, k);
    }
  }

  /** The fork loop changes only the tables and the counts, and shares the pages pointwise. */
  lemma {:induction false} ForkPagesShare(m: Machine, parent: nat, child: nat, v: nat)
    requires parent != child && HEAP_BOTTOM <= v && FramesInRange(m)
    requires forall k :: k in m.heaps ==> k.pid != child && HEAP_BOTTOM <= k.vpn
    ensures var m' := ForkPages(m, parent, child, v);
            && m'.heaps == SharedBelow(m.heaps, parent, child, v)
            && m'.tops == m.tops && m'.free == m.free && m'.frames == m.frames && m'.kernel == m.kernel
    decreases v
  {
    hide SharedBelow;
    if v == HEAP_BOTTOM {
      SharedBelowBottom(m.heaps, parent, child, v);
    } else {
      ForkPagesShare(m, parent, child, v - 1);
      SharedBelowNext(m.heaps, parent, child, v - 1);
      SharedBelowAt(m.heaps, parent, child, v - 1, Slot(parent, v - 1));
    }
  }

  lemma {:induction false} ForkPagesKeepsInv(m: Machine, parent: nat, child: nat, v: nat)
    requires Inv(m) && parent != child && child < |m.tops| && parent < |m.tops|
    requires (forall k :: k in m.heaps ==> k.pid != child && HEAP_BOTTOM <= k.vpn)
    requires m.tops[child] >= m.tops[parent]
    requires HEAP_BOTTOM <= v && FramesInRange(m)
    ensures Inv(ForkPages(m, parent, child, v))
    decreases v
  {
    hide SharedBelow, Inv, FreeListOk, Counted, EntriesOk;
    if v != HEAP_BOTTOM {
      var n := ForkPages(m, parent, child, v - 1);
      ForkPagesKeepsInv(m, parent, child, v - 1);
      ForkPagesShare(m, parent, child, v - 1);
      SharedBelowAt(m.heaps, parent, child, v - 1, Slot(parent, v - 1));
      SharedBelowAt(m.heaps, parent, child, v - 1, Slot(child, v - 1));
      ForkPageKeepsInv(n, parent, child, v - 1);
    }
  }

  lemma {:induction false} ForkPagesIgnoresTops(m: Machine, tops: seq<nat>, parent: nat, child: nat, v: nat)
    requires FramesInRange(m) && HEAP_BOTTOM <= v
    ensures FramesInRange(m.(tops := tops))
    ensures ForkPages(m.(tops := tops), parent, child, v) == ForkPages(m, parent, child, v).(tops := tops)
    decreases v
  {
    if v != HEAP_BOTTOM {
      ForkPagesIgnoresTops(m, tops, parent, child, v - 1);
    }
  }

  lemma ForkKeepsInv(m: Machine, parent: nat, child: nat)
    requires Inv(m) && Enabled(m, Fork(parent, child))
    ensures Inv(Step(m, Fork(parent, child)))
    ensures Step(m, Fork(parent, child)).heaps == SharedBelow(m.heaps, parent, child, m.tops[parent])
  {
    var raised := m.(tops := m.tops[child := m.tops[parent]]);
    forall k | k in raised.heaps
      ensures EntryOk(raised, k)
    {
      assert EntryOk(m, k);
    }
    ForkPagesKeepsInv(raised, parent, child, m.tops[parent]);
    ForkPagesShare(raised, parent, child, m.tops[parent]);
    ForkPagesIgnoresTops(m, raised.tops, parent, child, m.tops[parent]);
  }

  /** The fault handler, last owner: the frame stays and becomes writable. */
  lemma ReclaimKeepsInv(m: Machine, k: Slot)
    requires Inv(m) && k in m.heaps && m.heaps[k].frame < |m.refs| && m.refs[m.heaps[k].frame] <= 1
    ensures Inv(BreakSharing(m, k))
  {
    var m' := BreakSharing(m, k);
    assert EntryOk(m, k);
    forall f | 0 <= f < |m'.refs|
      ensures m'.refs[f] == |Mappers(m'.heaps, f)| + if f in m'.kernel then 1 else 0
    {
      MappersAfterPut(m.heaps, k, m'.heaps[k], f);
    }
    forall l | l in m'.heaps
      ensures EntryOk(m', l)
    {
      assert EntryOk(m, l);
    }
  }

  lemma CopyEffect(m: Machine, k: Slot)
    requires k in m.heaps && |m.refs| == |m.frames| && m.heaps[k].frame < |m.refs| && m.refs[m.heaps[k].frame] > 1
    requires m.free != [] && m.free[0] < |m.refs| && m.free[0] != m.heaps[k].frame
    ensures var m', e := BreakSharing(m, k), m.heaps[k];
            && m'.refs == m.refs[m.free[0] := 1][e.frame := m.refs[e.frame] - 1]
            && m'.heaps == m.heaps[k := Pte(m.free[0], true, false)]
            && m'.free == m.free[1..] && m'.tops == m.tops && m'.kernel == m.kernel
            && m'.frames == m.frames[m.free[0] := m.frames[e.frame]]
  {
  }

  lemma CopyKeepsCounted(m: Machine, k: Slot)
    requires Inv(m) && k in m.heaps && m.heaps[k].frame < |m.refs| && m.refs[m.heaps[k].frame] > 1
    requires m.free != [] && m.free[0] < |m.refs|
    ensures Counted(BreakSharing(m, k))
  {
    MappedIsCounted(m, k);
    CopyEffect(m, k);
    PopKeepsFreeList(m.refs, m.free);
    hide BreakSharing, FreeListOk;
    var m' := BreakSharing(m, k);
    forall f | 0 <= f < |m'.refs|
      ensures m'.refs[f] == |Mappers(m'.heaps, f)| + if f in m'.kernel then 1 else 0
    {
      MappersAfterPut(m.heaps, k, m'.heaps[k], f);
    }
  }

  lemma CopyKeepsEntries(m: Machine, k: Slot)
    requires Inv(m) && k in m.heaps && m.heaps[k].frame < |m.refs| && m.refs[m.heaps[k].frame] > 1
    requires m.free != [] && m.free[0] < |m.refs|
    ensures EntriesOk(BreakSharing(m, k))
  {
    MappedIsCounted(m, k);
    CopyEffect(m, k);
    PopKeepsFreeList(m.refs, m.free);
    hide BreakSharing;
    var m' := BreakSharing(m, k);
    forall l | l in m'.heaps
      ensures EntryOk(m', l)
    {
      assert EntryOk(m, l);
      if l != k {
        MappedIsCounted(m, l);
      }
    }
  }

  /** The fault handler, shared frame: the entry moves to a private copy. */
  lemma CopyKeepsInv(m: Machine, k: Slot)
    requires Inv(m) && k in m.heaps && m.heaps[k].frame < |m.refs| && m.refs[m.heaps[k].frame] > 1
    requires m.free != [] && m.free[0] < |m.refs|
    ensures Inv(BreakSharing(m, k))
  {
    MappedIsCounted(m, k);
    CopyEffect(m, k);
    hide BreakSharing, FreeListOk;
    CopyKeepsCounted(m, k);
    CopyKeepsEntries(m, k);
    hide Counted, EntriesOk;
    PopKeepsFreeList(m.refs, m.free);
    RecountKeepsFreeList(m.refs[m.free[0] := 1], m.free[1..], m.heaps[k].frame, m.refs[m.heaps[k].frame] - 1);
  }

  lemma FaultKeepsInv(m: Machine, k: Slot)
    requires Inv(m) && Enabled(m, StoreFault(k))
    ensures Inv(Step(m, StoreFault(k)))
  {
    hide Inv, BreakSharing;
    if m.refs[m.heaps[k].frame] > 1 {
      CopyKeepsInv(m, k);
    } else {
      ReclaimKeepsInv(m, k);
    }
  }

  /** Giving up one counted reference keeps the free list exact. */
  lemma FreeFrameKeepsFreeList(m: Machine, f: nat)
    requires FreeListOk(m.refs, m.free) && f < |m.refs| && m.refs[f] > 0
    ensures FreeListOk(FreeFrame(m, f).refs, FreeFrame(m, f).free)
    ensures FreeFrame(m, f).refs == m.refs[f := m.refs[f] - 1]
  {
    if m.refs[f] > 1 {
      RecountKeepsFreeList(m.refs, m.free, f, m.refs[f] - 1);
    } else {
      PushKeepsFreeList(m.refs, m.free, f);
    }
  }

  lemma UnmapKeepsInv(m: Machine, k: Slot)
    requires Inv(m) && Enabled(m, Unmap(k))
    ensures Inv(Step(m, Unmap(k)))
  {
    hide FreeListOk, FreeFrame;
    var m' := Step(m, Unmap(k));
    assert EntryOk(m, k);
    MappedIsCounted(m, k);
    FreeFrameKeepsFreeList(m, m.heaps[k].frame);
    FreeFrameFrame(m, m.heaps[k].frame);
    forall f | 0 <= f < |m'.refs|
      ensures m'.refs[f] == |Mappers(m'.heaps, f)| + if f in m'.kernel then 1 else 0
    {
      MappersAfterRemove(m.heaps, k, f);
    }
    forall l | l in m'.heaps
      ensures EntryOk(m', l)
    {
      assert EntryOk(m, l);
    }
  }

  lemma FreeFrameFrame(m: Machine, f: nat)
    requires f < |m.refs|
    ensures FreeFrame(m, f) == m.(refs := FreeFrame(m, f).refs, free := FreeFrame(m, f).free)
  {
  }

  lemma KernelAllocKeepsInv(m: Machine)
    requires Inv(m) && Enabled(m, KernelAlloc)
    ensures Inv(Step(m, KernelAlloc))
  {
    var m' := Step(m, KernelAlloc);
    PopKeepsFreeList(m.refs, m.free);
    forall l | l in m'.heaps
      ensures EntryOk(m', l)
    {
      assert EntryOk(m, l);
      MappedIsCounted(m, l);
    }
  }

  lemma KernelFreeKeepsInv(m: Machine, f: nat)
    requires Inv(m) && Enabled(m, KernelFree(f))
    ensures Inv(Step(m, KernelFree(f)))
  {
    hide FreeListOk, FreeFrame;
    var m' := Step(m, KernelFree(f));
    FreeFrameKeepsFreeList(m, f);
    FreeFrameFrame(m, f);
    forall l | l in m'.heaps
      ensures EntryOk(m', l) && m.heaps[l].frame != f
    {
      assert EntryOk(m, l);
    }
  }

  lemma WriteKeepsInv(m: Machine, e: Event)
    requires Inv(m) && Enabled(m, e) && (e.KernelWrite? || e.Store?)
    ensures Inv(Step(m, e))
  {
    hide FreeListOk;
    var m' := Step(m, e);
    forall l | l in m'.heaps
      ensures EntryOk(m', l)
    {
      assert EntryOk(m, l);
    }
  }

  /** Every step keeps the reference counts, the sharing bits and the free list consistent. */
  lemma StepKeepsInv(m: Machine, e: Event)
    requires Inv(m) && Enabled(m, e)
    ensures Inv(Step(m, e))
  {
    hide Inv;
    match e
    case Grow(p, v, found) => GrowKeepsInv(m, p, v, found);
    case Fork(parent, child) => ForkKeepsInv(m, parent, child);
    case StoreFault(k) => FaultKeepsInv(m, k);
    case Unmap(k) => UnmapKeepsInv(m, k);
    case KernelAlloc => KernelAllocKeepsInv(m);
    case KernelFree(f) => KernelFreeKeepsInv(m, f);
    case _ => WriteKeepsInv(m, e);
  }
}
