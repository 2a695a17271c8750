/** Page tables, data pages and the page allocator together (kernel/vmm.c, kernel/pmm.c): table pages
    and data pages come from one free list, and a page goes back to it with its last reference.

    A reference to a page is a table of some address space that lives in it, a leaf entry that owns
    it, or a hold of the kernel, between alloc_page and the mapping. Leaf entries written without a
    reference of their own, as kern_vm_map writes them, are allowed and are not counted. */
module PageSpaces {
  import opened Basics
  import opened Sv39

  /** A page of an address space. */
  datatype Slot = Slot(root: nat, page: nat)

  /** `refs` is page_ref_count; `held` counts the kernel's holds; `owned` gives the leaf entries with a
      reference, and their frames. */
  datatype Mem = Mem(
    tables: Tables, places: Places, free: seq<nat>, refs: map<nat, nat>, held: map<nat, nat>, owned: map<Slot, nat>)

  datatype Event =
    /** a page directory, from alloc_page and memset */
    | NewRoot
    /** alloc_page for a data page */
    | Alloc
    /** inc_page_ref */
    | Share(frame: nat)
    /** free_page by a holder */
    | Release(frame: nat)
    /** page_walk with alloc: a table below entry `i` of `t` */
    | NewTable(t: nat, i: nat)
    /** the leaf store of map_pages; `own` says whether the entry takes over a hold */
    | MapPage(root: nat, page: nat, e: Pte, own: bool)
    /** one round of user_vm_unmap */
    | UnmapPage(root: nat, page: nat, reclaim: bool)

  const NPAGES: nat := MAXVA / PGSIZE

  function Held(held: map<nat, nat>, p: nat): nat {
    if p in held then held[p] else 0
  }

  // ---- the allocator ----

  /** alloc_page */
  function Take(m: Mem): Mem
    requires m.free != []
  {
    m.(free := m.free[1..], refs := m.refs[m.free[0] := 1])
  }

  /** free_page */
  function Give(m: Mem, p: nat): Mem
    requires p in m.refs
  {
    if m.refs[p] > 1 then m.(refs := m.refs[p := m.refs[p] - 1])
    else m.(refs := m.refs[p := 0], free := [p] + m.free)
  }

  // ---- steps ----

  function EmptyTable(): (t: Table)
    ensures forall j :: 0 <= j < 512 ==> t[j] == ZERO
  {
    seq(512, j => ZERO)
  }

  ghost predicate IsRoot(at: Places, r: nat) {
    r in at && at[r] == Place(r, [])
  }

  /** What a step finds and what its caller brings: a free page where one is taken, a reference where one
      is given up, an empty entry to fill, a valid one to clear. */
  ghost predicate Enabled(m: Mem, e: Event) {
    match e
    case NewRoot => m.free != []
    case Alloc => m.free != []
    case Share(p) => p in m.refs && (Held(m.held, p) > 0 || Fiber(m.owned, p) != {})
    case Release(p) => p in m.refs && Held(m.held, p) > 0
    case NewTable(t, i) =>
      m.free != [] && t in m.tables && t in m.places && |m.places[t].path| < 2 && i < 512 && V !in m.tables[t][i].flags
    case MapPage(root, page, e, own) =>
      && IsRoot(m.places, root) && page < NPAGES && LowTable(m.tables, root, page * PGSIZE).Some?
      && V !in PageLeaf(m.tables, root, page).flags && V in e.flags
      && (own ==> e.pa in m.refs && Held(m.held, e.pa) > 0)
    case UnmapPage(root, page, reclaim) =>
      && IsRoot(m.places, root) && page < NPAGES && LowTable(m.tables, root, page * PGSIZE).Some?
      && (reclaim ==> Slot(root, page) in m.owned && m.owned[Slot(root, page)] in m.refs)
  }

  /** The leaf word of a page replaced. */
  function WriteLeaf(ts: Tables, root: nat, page: nat, e: Pte): Tables {
    var low := LowTable(ts, root, page * PGSIZE);
    if low.Some? && low.value in ts then ts[low.value := ts[low.value][Px(0, page * PGSIZE) := e]] else ts
  }

  function RootStep(m: Mem): Mem
    requires m.free != []
  {
    Take(m).(tables := m.tables[m.free[0] := EmptyTable()], places := m.places[m.free[0] := Place(m.free[0], [])])
  }

  function TableStep(m: Mem, t: nat, i: nat): Mem
    requires m.free != [] && t in m.tables && t in m.places && i < 512
  {
    Take(m).(tables := m.tables[t := m.tables[t][i := Pte(m.free[0], {V})]][m.free[0] := EmptyTable()],
             places := m.places[m.free[0] := Place(m.places[t].root, m.places[t].path + [i])])
  }

  function MapStep(m: Mem, root: nat, page: nat, e: Pte, own: bool): Mem
    requires own ==> Held(m.held, e.pa) > 0
  {
    var ts := WriteLeaf(m.tables, root, page, e);
    if !own then m.(tables := ts)
    else m.(tables := ts, owned := m.owned[Slot(root, page) := e.pa], held := m.held[e.pa := Held(m.held, e.pa) - 1])
  }

  /** The reference of an entry that is cleared: given back, or left to the caller. */
  function Unowned(m: Mem, s: Slot, reclaim: bool): Mem
    requires reclaim ==> s in m.owned && m.owned[s] in m.refs
  {
    if reclaim then Give(m, m.owned[s])
    else if s in m.owned then m.(held := m.held[m.owned[s] := Held(m.held, m.owned[s]) + 1])
    else m
  }

  function UnmapStep(m: Mem, root: nat, page: nat, reclaim: bool): Mem
    requires reclaim ==> Slot(root, page) in m.owned && m.owned[Slot(root, page)] in m.refs
  {
    Unowned(m, Slot(root, page), reclaim).(
      tables := WriteLeaf(m.tables, root, page, ZERO), owned := m.owned - {Slot(root, page)})
  }

  ghost function Step(m: Mem, e: Event): Mem
    requires Enabled(m, e)
  {
    match e
    case NewRoot => RootStep(m)
    case Alloc => Take(m).(held := m.held[m.free[0] := 1])
    case Share(p) => m.(refs := m.refs[p := m.refs[p] + 1], held := m.held[p := Held(m.held, p) + 1])
    case Release(p) => Give(m, p).(held := m.held[p := Held(m.held, p) - 1])
    case NewTable(t, i) => TableStep(m, t, i)
    case MapPage(root, page, e, own) => MapStep(m, root, page, e, own)
    case UnmapPage(root, page, reclaim) => UnmapStep(m, root, page, reclaim)
  }

  /** After pmm_init: no tables, every page on the free list once, no references. */
  ghost predicate Boot(m: Mem) {
    && m.tables == map[] && m.places == map[] && m.held == map[] && m.owned == map[]
    && NoDuplicates(m.free)
    && (forall p :: p in m.free <==> p in m.refs) && (forall p :: p in m.refs ==> m.refs[p] == 0)
  }

  // ---- the invariant ----

  /** The free list is exactly the pages without a reference. */
  ghost predicate FreeExact(refs: map<nat, nat>, free: seq<nat>) {
    forall p :: p in free <==> p in refs && refs[p] == 0
  }

  /** Counts are exact, and a table page has no reference but its own. */
  ghost predicate CountExact(m: Mem, p: nat)
    requires p in m.refs
  {
    m.refs[p] == |Fiber(m.owned, p)| + Held(m.held, p) + (if p in m.tables then 1 else 0)
  }

  ghost predicate CountsExact(m: Mem) {
    && (forall p :: p in m.refs ==> CountExact(m, p))
    && (forall p :: p in m.tables ==> p in m.refs && m.refs[p] == 1)
    && (forall p :: p in m.held ==> p in m.refs)
    && (forall s :: s in m.owned ==> m.owned[s] in m.refs)
  }

  /** An owned entry is a valid leaf entry of its address space with that frame. */
  ghost predicate SlotOk(ts: Tables, at: Places, s: Slot, frame: nat) {
    && IsRoot(at, s.root) && s.page < NPAGES
    && V in PageLeaf(ts, s.root, s.page).flags && PageLeaf(ts, s.root, s.page).pa == frame
  }

  ghost predicate SlotsOk(ts: Tables, at: Places, owned: map<Slot, nat>) {
    forall s :: s in owned ==> SlotOk(ts, at, s, owned[s])
  }

  ghost predicate Inv(m: Mem) {
    && ForestOk(m.tables, m.places, m.free)
    && FreeExact(m.refs, m.free)
    && CountsExact(m)
    && SlotsOk(m.tables, m.places, m.owned)
  }

  /** An owned frame is neither a table nor free. */
  lemma OwnedApart(m: Mem, s: Slot)
    requires Inv(m) && s in m.owned
    ensures m.owned[s] in m.refs && m.refs[m.owned[s]] >= 1
    ensures m.owned[s] !in m.tables && m.owned[s] !in m.free
  {
    hide ForestOk, SlotsOk;
    var p := m.owned[s];
    assert s in Fiber(m.owned, p);
    assert CountExact(m, p);
  }

  lemma HeldApart(m: Mem, p: nat)
    requires Inv(m) && Held(m.held, p) > 0
    ensures p in m.refs && m.refs[p] >= 1 && p !in m.tables && p !in m.free
  {
    hide ForestOk, SlotsOk;
    assert CountExact(m, p);
  }

  // ---- taking and giving ----

  /** A page just taken had no references. */
  lemma TakenIsFresh(m: Mem)
    requires Inv(m) && m.free != []
    ensures var p := m.free[0];
            p in m.refs && m.refs[p] == 0 && Fiber(m.owned, p) == {} && Held(m.held, p) == 0 && p !in m.tables
    ensures FreeExact(m.refs[m.free[0] := 1], m.free[1..])
  {
    hide SlotsOk;
    var p := m.free[0];
    assert p in m.free;
    assert CountExact(m, p);
    assert m.free == [p] + m.free[1..];
    assert p !in m.free[1..];
  }

  lemma GivenKeepsFree(m: Mem, p: nat)
    requires FreeExact(m.refs, m.free) && ForestOk(m.tables, m.places, m.free) && p in m.refs && m.refs[p] >= 1
        && p !in m.tables
    ensures FreeExact(Give(m, p).refs, Give(m, p).free)
    ensures ForestOk(m.tables, m.places, Give(m, p).free)
    ensures Give(m, p) == m.(refs := m.refs[p := m.refs[p] - 1], free := Give(m, p).free)
  {
    hide TableOk;
    assert p !in m.free;
  }

  // ---- tables ----

  /** A page taken for a table: its one reference is the table. */
  lemma CountsWithTable(m: Mem, m': Mem)
    requires Inv(m) && m.free != []
    requires m'.refs == m.refs[m.free[0] := 1] && m'.held == m.held && m'.owned == m.owned
    requires m'.tables.Keys == m.tables.Keys + {m.free[0]}
    ensures CountsExact(m')
  {
    hide ForestOk, SlotsOk;
    TakenIsFresh(m);
    forall q | q in m'.refs
      ensures CountExact(m', q)
    {
      assert CountExact(m, q);
    }
  }

  lemma RootKeepsInv(m: Mem)
    requires Inv(m) && m.free != []
    ensures Inv(RootStep(m))
  {
    hide TableOk, CountsExact, CountExact, PageLeaf, SlotsOk;
    var m' := RootStep(m);
    TakenIsFresh(m);
    NewRootKeepsForest(m.tables, m.places, m.free, EmptyTable());
    CountsWithTable(m, m');
    RootKeepsSlots(m);
  }

  lemma RootKeepsSlots(m: Mem)
    requires Inv(m) && m.free != [] && m.free[0] !in m.tables
    ensures SlotsOk(RootStep(m).tables, RootStep(m).places, m.owned)
  {
    hide CountsExact, Leaf, TableOk;
    forall s | s in m.owned
      ensures SlotOk(RootStep(m).tables, RootStep(m).places, s, m.owned[s])
    {
      assert SlotOk(m.tables, m.places, s, m.owned[s]);
      LeafAfterNewRoot(m.tables, m.places, m.free, m.free[0], EmptyTable(), s.root, s.page * PGSIZE);
    }
  }

  lemma TableKeepsInv(m: Mem, t: nat, i: nat)
    requires Inv(m) && Enabled(m, NewTable(t, i))
    ensures Inv(TableStep(m, t, i))
  {
    hide TableOk, CountsExact, CountExact, PageLeaf, SlotsOk, ForestOk;
    var m' := TableStep(m, t, i);
    TakenIsFresh(m);
    NewTableKeepsForest(m.tables, m.places, m.free, t, i, EmptyTable());
    CountsWithTable(m, m');
    TableKeepsSlots(m, t, i);
  }

  lemma TableKeepsSlots(m: Mem, t: nat, i: nat)
    requires Inv(m) && Enabled(m, NewTable(t, i)) && m.free[0] !in m.tables
    ensures SlotsOk(TableStep(m, t, i).tables, TableStep(m, t, i).places, m.owned)
  {
    hide CountsExact, Leaf, TableOk;
    forall s | s in m.owned
      ensures SlotOk(TableStep(m, t, i).tables, TableStep(m, t, i).places, s, m.owned[s])
    {
      assert SlotOk(m.tables, m.places, s, m.owned[s]);
      LeafAfterNewTable(m.tables, m.places, m.free, t, i, m.free[0], EmptyTable(), s.root, s.page * PGSIZE);
    }
  }

  // ---- holds ----

  /** A reference more or less, held by the kernel. */
  lemma CountsWithHold(m: Mem, m': Mem, p: nat, n: nat)
    requires CountsExact(m) && p in m.refs && p !in m.tables && n >= |Fiber(m.owned, p)|
    requires m'.refs == m.refs[p := n] && m'.held == m.held[p := n - |Fiber(m.owned, p)|]
    requires m'.owned == m.owned && m'.tables == m.tables
    ensures CountsExact(m')
  {
    forall q | q in m'.refs
      ensures CountExact(m', q)
    {
      assert CountExact(m, q);
    }
  }

  lemma AllocKeepsInv(m: Mem)
    requires Inv(m) && m.free != []
    ensures Inv(Step(m, Alloc))
  {
    hide TableOk, PageLeaf, SlotsOk, CountsExact, FreeExact;
    TakenIsFresh(m);
    assert forall k :: 0 <= k < |m.free[1..]| ==> m.free[1..][k] == m.free[k + 1];
    CountsWithHold(m, Step(m, Alloc), m.free[0], 1);
  }

  lemma ShareKeepsInv(m: Mem, p: nat)
    requires Inv(m) && Enabled(m, Share(p))
    ensures Inv(Step(m, Share(p)))
  {
    hide ForestOk, PageLeaf, SlotsOk;
    assert CountExact(m, p);
    assert |Fiber(m.owned, p)| == 0 ==> Fiber(m.owned, p) == {};
    hide CountsExact, Fiber;
    CountsWithHold(m, Step(m, Share(p)), p, m.refs[p] + 1);
  }

  lemma ReleaseKeepsInv(m: Mem, p: nat)
    requires Inv(m) && Enabled(m, Release(p))
    ensures Inv(Step(m, Release(p)))
  {
    hide ForestOk, PageLeaf, SlotsOk, Give, Fiber, CountsExact, FreeExact;
    HeldApart(m, p);
    assert CountExact(m, p) by { Counted(m, p); }
    GivenKeepsFree(m, p);
    CountsWithHold(m, Step(m, Release(p)), p, m.refs[p] - 1);
  }

  lemma Counted(m: Mem, p: nat)
    requires CountsExact(m) && p in m.refs
    ensures CountExact(m, p)
  {
  }

  // ---- leaf entries ----

  /** Writing the leaf word of a page that has a table: the tree stays, other entries stay. */
  lemma WriteKeepsForest(m: Mem, root: nat, page: nat, e: Pte)
    requires ForestOk(m.tables, m.places, m.free) && IsRoot(m.places, root) && page < NPAGES
    requires LowTable(m.tables, root, page * PGSIZE).Some?
    ensures ForestOk(WriteLeaf(m.tables, root, page, e), m.places, m.free)
    ensures WriteLeaf(m.tables, root, page, e).Keys == m.tables.Keys
    ensures forall s: Slot :: IsRoot(m.places, s.root) && s.page < NPAGES ==>
              PageLeaf(WriteLeaf(m.tables, root, page, e), s.root, s.page) ==
                if s == Slot(root, page) then e else PageLeaf(m.tables, s.root, s.page)
  {
    hide Leaf, TableOk;
    var va := page * PGSIZE;
    LowTablePlace(m.tables, m.places, m.free, root, va);
    var low := LowTable(m.tables, root, va).value;
    LeafWriteKeepsForest(m.tables, m.places, m.free, low, Px(0, va), e);
    forall s: Slot | IsRoot(m.places, s.root) && s.page < NPAGES
      ensures PageLeaf(WriteLeaf(m.tables, root, page, e), s.root, s.page) ==
                if s == Slot(root, page) then e else PageLeaf(m.tables, s.root, s.page)
    {
      LeafWrite(m.tables, m.places, m.free, root, va, e, s.root, s.page * PGSIZE);
    }
  }

  lemma MapKeepsInv(m: Mem, root: nat, page: nat, e: Pte, own: bool)
    requires Inv(m) && Enabled(m, MapPage(root, page, e, own))
    ensures Inv(MapStep(m, root, page, e, own))
  {
    hide ForestOk, PageLeaf, CountsExact, LowTable, WriteLeaf, FreeExact;
    var m' := MapStep(m, root, page, e, own);
    WriteKeepsForest(m, root, page, e);
    assert Slot(root, page) !in m.owned by {
      assert Slot(root, page) in m.owned ==> SlotOk(m.tables, m.places, Slot(root, page), m.owned[Slot(root, page)]);
    }
    forall s | s in m'.owned
      ensures SlotOk(m'.tables, m'.places, s, m'.owned[s])
    {
      if s in m.owned {
        assert SlotOk(m.tables, m.places, s, m.owned[s]);
      }
    }
    if own {
      CountsWithOwner(m, m', Slot(root, page), e.pa);
    } else {
      CountsSame(m, m');
    }
  }

  lemma CountsSame(m: Mem, m': Mem)
    requires CountsExact(m) && m'.refs == m.refs && m'.held == m.held && m'.owned == m.owned
        && m'.tables.Keys == m.tables.Keys
    ensures CountsExact(m')
  {
    forall q | q in m'.refs
      ensures CountExact(m', q)
    {
      assert CountExact(m, q);
    }
  }

  /** A hold handed to a leaf entry. */
  lemma CountsWithOwner(m: Mem, m': Mem, s: Slot, p: nat)
    requires CountsExact(m) && s !in m.owned && p in m.refs && Held(m.held, p) > 0
    requires m'.refs == m.refs && m'.tables.Keys == m.tables.Keys
    requires m'.owned == m.owned[s := p] && m'.held == m.held[p := Held(m.held, p) - 1]
    ensures CountsExact(m')
  {
    hide Fiber;
    forall q | q in m'.refs
      ensures CountExact(m', q)
    {
      assert CountExact(m, q);
      FiberAdd(m.owned, s, p, q);
    }
  }

  /** A leaf entry cleared: its reference given back, or left with the caller. */
  lemma CountsWithoutOwner(m: Mem, m': Mem, s: Slot, reclaim: bool)
    requires CountsExact(m) && s in m.owned && m.refs[m.owned[s]] >= 1 && m.owned[s] !in m.tables
    requires var p := m.owned[s];
             && m'.tables.Keys == m.tables.Keys && m'.owned == m.owned - {s}
             && m'.refs == (if reclaim then m.refs[p := m.refs[p] - 1] else m.refs)
             && m'.held == (if reclaim then m.held else m.held[p := Held(m.held, p) + 1])
    ensures CountsExact(m')
  {
    hide Fiber;
    forall q | q in m'.refs
      ensures CountExact(m', q)
    {
      assert CountExact(m, q);
      FiberDrop(m.owned, s, q);
    }
  }

  lemma UnmapKeepsInv(m: Mem, root: nat, page: nat, reclaim: bool)
    requires Inv(m) && Enabled(m, UnmapPage(root, page, reclaim))
    ensures Inv(UnmapStep(m, root, page, reclaim))
  {
    hide ForestOk, PageLeaf, LowTable, WriteLeaf, FreeExact, Give, CountsExact;
    var s, m' := Slot(root, page), UnmapStep(m, root, page, reclaim);
    if s in m.owned {
      OwnedApart(m, s);
      GivenKeepsFree(m, m.owned[s]);
      WriteKeepsForest(if reclaim then Give(m, m.owned[s]) else m, root, page, ZERO);
      CountsWithoutOwner(m, m', s, reclaim);
    } else {
      WriteKeepsForest(m, root, page, ZERO);
      assert m.owned - {s} == m.owned;
      CountsSame(m, m');
    }
    forall k | k in m'.owned
      ensures SlotOk(m'.tables, m'.places, k, m'.owned[k])
    {
      assert SlotOk(m.tables, m.places, k, m.owned[k]);
    }
  }

  /** Every step keeps the tables, the counts and the free list consistent. */
  lemma StepKeepsInv(m: Mem, e: Event)
    requires Inv(m) && Enabled(m, e)
    ensures Inv(Step(m, e))
  {
    hide Inv;
    match e
    case NewRoot => RootKeepsInv(m);
    case Alloc => AllocKeepsInv(m);
    case Share(p) => ShareKeepsInv(m, p);
    case Release(p) => ReleaseKeepsInv(m, p);
    case NewTable(t, i) => TableKeepsInv(m, t, i);
    case MapPage(root, page, e, own) => MapKeepsInv(m, root, page, e, own);
    case UnmapPage(root, page, reclaim) => UnmapKeepsInv(m, root, page, reclaim);
  }

  // ---- whole runs ----

  /** The memory after a run, if every step of it was possible. */
  ghost function Exec(m: Mem, run: seq<Event>): Option<Mem>
    decreases |run|
  {
    if run == [] then Some(m)
    else if Enabled(m, run[0]) then Exec(Step(m, run[0]), run[1..])
    else None
  }

  lemma BootIsInv(m: Mem)
    requires Boot(m)
    ensures Inv(m)
  {
    forall p | p in m.refs
      ensures CountExact(m, p)
    {
      assert Fiber(m.owned, p) == {};
    }
  }

  lemma {:induction false} RunsKeepInv(m: Mem, run: seq<Event>)
    requires Inv(m) && Exec(m, run).Some?
    ensures Inv(Exec(m, run).value)
    decreases |run|
  {
    hide Inv, Enabled, Step;
    if run != [] {
      StepKeepsInv(m, run[0]);
      RunsKeepInv(Step(m, run[0]), run[1..]);
    }
  }

  /** In every state of every run that mixes new address spaces, fresh and shared mappings and unmapping
      with and without reclaim: the tables are disjoint trees; the frame of an owned entry is no table
      and not free; every page's count is the number of its references; the free list is exactly the
      pages without one, each once. */
  lemma TablesAndDataApart(m: Mem, run: seq<Event>)
    requires Boot(m) && Exec(m, run).Some?
    ensures var n := Exec(m, run).value;
            && ForestOk(n.tables, n.places, n.free)
            && (forall s :: s in n.owned ==>
                  SlotOk(n.tables, n.places, s, n.owned[s]) && n.owned[s] !in n.tables && n.owned[s] !in n.free)
            && (forall p :: p in n.refs ==> CountExact(n, p))
            && (forall p :: p in n.tables ==> p !in n.free && Fiber(n.owned, p) == {} && Held(n.held, p) == 0)
            && (forall p :: p in n.free <==> p in n.refs && n.refs[p] == 0)
  {
    hide Boot, ForestOk, Exec;
    BootIsInv(m);
    RunsKeepInv(m, run);
    var n := Exec(m, run).value;
    forall s | s in n.owned
      ensures n.owned[s] !in n.tables && n.owned[s] !in n.free
    {
      OwnedApart(n, s);
    }
    forall p | p in n.tables
      ensures Fiber(n.owned, p) == {} && Held(n.held, p) == 0
    {
      assert CountExact(n, p);
    }
  }
}
