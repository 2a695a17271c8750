/** The routines of kernel/vmm.c that change page tables, with alloc_page and free_page of
    kernel/pmm.c under them. Each is a run of the machine of PageSpaces. */
module PageTables {
  import opened Basics
  import opened Sv39
  import opened PageSpaces

  /** `m'` is reached from `m` by this run. */
  ghost predicate Ran(m: Mem, run: seq<Event>, m': Mem) {
    Exec(m, run) == Some(m')
  }

  lemma RanOne(m: Mem, e: Event)
    requires Enabled(m, e)
    ensures Ran(m, [e], Step(m, e))
  {
    hide Enabled, Step;
    assert [e][1..] == [] && Exec(Step(m, e), []) == Some(Step(m, e));
  }

  lemma {:induction false} RanThen(m: Mem, a: seq<Event>, m1: Mem, b: seq<Event>, m2: Mem)
    requires Ran(m, a, m1) && Ran(m1, b, m2)
    ensures Ran(m, a + b, m2)
    decreases |a|
  {
    hide Enabled, Step;
    if a == [] {
      assert a + b == b;
    } else {
      RanThen(Step(m, a[0]), a[1..], m1, b, m2);
      assert (a + b)[0] == a[0] && (a + b)[1..] == a[1..] + b;
    }
  }

  /** How map_pages and user_vm_unmap end. */
  datatype Outcome = Done | OutOfPages | Panic

  /** What page_walk returns: a panic, NULL, or the slot (table, index) of the leaf word. */
  datatype Walked = Panicked | Missing | Found(t: nat, i: nat)

  class Mmu {
    var tables: Tables
    var free: seq<nat>
    /** page_ref_count, by page address */
    var refs: map<nat, nat>
    ghost var places: Places
    ghost var held: map<nat, nat>
    ghost var owned: map<Slot, nat>

    ghost function View(): Mem
      reads this
    {
      Mem(tables, places, free, refs, held, owned)
    }

    ghost predicate Valid()
      reads this
    {
      Inv(View())
    }

    /** alloc_page: the head of the free list, with count one. */
    method AllocPage() returns (p: Option<nat>)
      modifies this`free, this`refs
      ensures p == if old(free) == [] then None else Some(old(free)[0])
      ensures View() == if p.None? then old(View()) else Take(old(View()))
    {
      if free == [] {
        return None;
      }
      p := Some(free[0]);
      refs := refs[free[0] := 1];
      free := free[1..];
    }

    /** free_page: one reference less; with the last one the page goes back to the list. It panics for an
        address that is no page of the allocator. */
    method FreePage(p: nat) returns (ok: bool)
      modifies this`free, this`refs
      ensures ok == (p in old(refs))
      ensures View() == if ok then Give(old(View()), p) else old(View())
    {
      if p !in refs {
        return false;
      }
      if refs[p] > 1 {
        refs := refs[p := refs[p] - 1];
      } else {
        refs := refs[p := 0];
        free := [p] + free;
      }
      ok := true;
    }

    /** A page directory for a new address space, in which nothing is mapped. */
    method NewSpace() returns (root: Option<nat>, ghost run: seq<Event>)
      requires Valid()
      modifies this
      ensures Valid() && Ran(old(View()), run, View()) && SameView(old(tables), tables, old(places))
      ensures root.None? <==> old(free) == []
      ensures root.Some? ==> run == [NewRoot] && root.value !in old(places) && IsRoot(places, root.value)
      ensures root.Some? ==> forall page :: 0 <= page < NPAGES ==> PageLeaf(tables, root.value, page) == ZERO
    {
      hide TableOk, Inv, Leaf;
      ghost var m := View();
      root := AllocPage();
      run := [];
      if root.None? {
        return;
      }
      RootKeepsInv(m);
      RootKeepsView(m);
      RanOne(m, NewRoot);
      run := [NewRoot];
      tables := tables[root.value := EmptyTable()];
      places := places[root.value := Place(root.value, [])];
    }

    /** alloc_page for a data page: the caller holds its one reference. */
    method AllocData() returns (p: Option<nat>, ghost run: seq<Event>)
      requires Valid()
      modifies this
      ensures Valid() && Ran(old(View()), run, View())
      ensures p.Some? ==> run == [Alloc] && Held(held, p.value) == 1 && p.value !in tables
      ensures p.None? <==> old(free) == []
    {
      hide Inv;
      ghost var m := View();
      p := AllocPage();
      run := [];
      if p.None? {
        return;
      }
      AllocKeepsInv(m);
      RanOne(m, Alloc);
      run := [Alloc];
      held := held[p.value := 1];
      HeldApart(View(), p.value);
    }

    /** inc_page_ref on a page that the caller holds or finds mapped. */
    method ShareFrame(p: nat)
      requires Valid() && Enabled(View(), Share(p))
      modifies this`refs, this`held
      ensures Valid() && Ran(old(View()), [Share(p)], View()) && Held(held, p) == Held(old(held), p) + 1
    {
      hide Inv;
      ShareKeepsInv(View(), p);
      RanOne(View(), Share(p));
      refs := refs[p := refs[p] + 1];
      held := held[p := Held(held, p) + 1];
    }

    /** free_page by a holder. */
    method ReleaseFrame(p: nat)
      requires Valid() && Enabled(View(), Release(p))
      modifies this`refs, this`held, this`free
      ensures Valid() && Ran(old(View()), [Release(p)], View())
      ensures p in free <==> old(refs)[p] == 1
    {
      hide Inv;
      ghost var m := View();
      ReleaseKeepsInv(m, p);
      RanOne(m, Release(p));
      LastHold(m, p);
      var _ := FreePage(p);
      held := held[p := Held(held, p) - 1];
    }

    /** One level of page_walk: the table below entry `i` of `t`, made on demand. */
    method Descend(t: nat, i: nat, alloc: bool) returns (r: Option<nat>, ghost run: seq<Event>)
      requires Valid() && t in places && |places[t].path| < 2 && i < 512
      modifies this`tables, this`free, this`refs, this`places
      ensures Valid() && Ran(old(View()), run, View())
      ensures SameView(old(tables), tables, old(places)) && Extends(old(places), places)
      ensures r.Some? ==> Child(tables, t, i) == r && r.value in places
      ensures r.Some? ==> places[r.value] == Place(places[t].root, places[t].path + [i])
      ensures r.None? <==> Child(old(tables), t, i).None? && (!alloc || old(free) == [])
      ensures r.None? || Child(old(tables), t, i).Some? ==> View() == old(View())
      ensures forall u, j :: u in old(tables) && 0 <= j < 512 && (u, j) != (t, i) ==>
                u in tables && tables[u][j] == old(tables)[u][j]
    {
      hide Leaf, Inv, Px;
      ghost var m := View();
      run := [];
      ChildPlaced(m, t, i);
      SameViewReflexive(tables, places);
      var e := tables[t][i];
      if V in e.flags {
        return Some(e.pa), run;
      }
      if !alloc {
        return None, run;
      }
      r := AllocPage();
      if r.None? {
        return;
      }
      var page := r.value;
      TableKeepsInv(m, t, i);
      TableKeepsView(m, t, i);
      RanOne(m, NewTable(t, i));
      run := [NewTable(t, i)];
      places := places[page := Place(places[t].root, places[t].path + [i])];
      tables := tables[t := tables[t][i := Pte(page, {V})]];
      tables := tables[page := EmptyTable()];
    }

    /** page_walk: a panic at or above MAXVA, else the slot of the leaf word for `va`. */
    method PageWalk(root: nat, va: nat, alloc: bool) returns (slot: Walked, ghost run: seq<Event>)
      requires Valid() && IsRoot(places, root)
      modifies this`tables, this`free, this`refs, this`places
      ensures Valid() && Ran(old(View()), run, View())
      ensures SameView(old(tables), tables, old(places)) && Extends(old(places), places)
      ensures slot.Panicked? <==> va >= MAXVA
      ensures slot.Found? ==> LowTable(tables, root, va) == Some(slot.t) && slot.i == Px(0, va) && slot.t in tables
      ensures slot.Panicked? || !alloc ==> View() == old(View())
      ensures !alloc && va < MAXVA ==> (slot.Missing? <==> LowTable(tables, root, va).None?)
      ensures alloc && slot.Missing? ==> free == [] && LowTable(tables, root, va).None?
    {
      hide Leaf, SameView, Px, Inv, Ran, ForestOk;
      run := [];
      RanNothing(View());
      SameViewReflexive(tables, places);
      if va >= MAXVA {
        return Panicked, run;
      }
      var pt, level := root, 2;
      while level > 0
        invariant 0 <= level <= 2 && Valid() && IsRoot(places, root) && pt in places
        invariant Ran(old(View()), run, View())
        invariant places[pt] == Place(root, UpperPath(va, level))
        invariant SameView(old(tables), tables, old(places)) && Extends(old(places), places)
        invariant !alloc ==> View() == old(View())
        invariant level == 2 ==> pt == root
        invariant level == 1 ==> Child(tables, root, Px(2, va)) == Some(pt)
        invariant level == 0 ==> LowTable(tables, root, va) == Some(pt)
      {
        ghost var before := View();
        var next, more := Descend(pt, Px(level, va), alloc);
        RanThen(old(View()), run, before, more, View());
        run := run + more;
        SameViewTransitive(old(tables), old(places), before.tables, before.places, tables);
        assert level == 1 ==> tables[root][Px(2, va)] == before.tables[root][Px(2, va)] by {
          PlacesAreTables(before);
        }
        if next.None? {
          return Missing, run;
        }
        assert [] + [Px(2, va)] == [Px(2, va)] && [Px(2, va)] + [Px(1, va)] == [Px(2, va), Px(1, va)];
        pt := next.value;
        level := level - 1;
      }
      PlacesAreTables(View());
      slot := Found(pt, Px(0, va));
    }

    /** The leaf store of map_pages. */
    method SetLeaf(root: nat, page: nat, t: nat, i: nat, e: Pte, ghost own: bool)
      requires Valid() && Enabled(View(), MapPage(root, page, e, own))
      requires LowTable(tables, root, page * PGSIZE) == Some(t) && i == Px(0, page * PGSIZE) && t in tables
      modifies this`tables, this`held, this`owned
      ensures Valid() && Ran(old(View()), [MapPage(root, page, e, own)], View())
      ensures View() == MapStep(old(View()), root, page, e, own)
      ensures Rewritten(old(tables), tables, places, root, page, e)
    {
      hide Inv, Leaf, PageLeaf, LowTable, ForestOk;
      MapKeepsInv(View(), root, page, e, own);
      RanOne(View(), MapPage(root, page, e, own));
      WriteRewrites(View(), root, page, e);
      tables := tables[t := tables[t][i := e]];
      if own {
        owned := owned[Slot(root, page) := e.pa];
        held := held[e.pa := Held(held, e.pa) - 1];
      }
    }

    /** One round of user_vm_unmap on a valid leaf word: free_page, if asked, and the store of zero. */
    method ClearLeaf(root: nat, page: nat, t: nat, i: nat, reclaim: bool)
      requires Valid() && Enabled(View(), UnmapPage(root, page, reclaim))
      requires LowTable(tables, root, page * PGSIZE) == Some(t) && i == Px(0, page * PGSIZE) && t in tables
      requires reclaim ==> tables[t][i].pa == owned[Slot(root, page)]
      modifies this`tables, this`held, this`owned, this`free, this`refs
      ensures Valid() && Ran(old(View()), [UnmapPage(root, page, reclaim)], View())
      ensures View() == UnmapStep(old(View()), root, page, reclaim)
      ensures Rewritten(old(tables), tables, places, root, page, ZERO)
    {
      hide Inv, Leaf, PageLeaf, LowTable, ForestOk, Give;
      ghost var m := View();
      UnmapKeepsInv(m, root, page, reclaim);
      RanOne(m, UnmapPage(root, page, reclaim));
      WriteRewrites(m, root, page, ZERO);
      GiveKeepsRest(m);
      ghost var s := Slot(root, page);
      if reclaim {
        var _ := FreePage(tables[t][i].pa);
      } else if s in owned {
        held := held[owned[s] := Held(held, owned[s]) + 1];
      }
      tables := tables[t := tables[t][i := ZERO]];
      owned := owned - {s};
    }

    /** One round of map_pages. */
    method MapOne(root: nat, page: nat, e: Pte, ghost own: bool) returns (outcome: Outcome, ghost run: seq<Event>)
      requires Valid() && IsRoot(places, root) && V in e.flags
      requires own ==> Held(held, e.pa) > 0
      modifies this
      ensures Valid() && Ran(old(View()), run, View()) && Extends(old(places), places)
      ensures outcome.Done? ==> Rewritten(old(tables), tables, old(places), root, page, e)
      ensures owned == if outcome.Done? && own then old(owned)[Slot(root, page) := e.pa] else old(owned)
      ensures held == if outcome.Done? && own then old(held)[e.pa := Held(old(held), e.pa) - 1] else old(held)
      ensures !outcome.Done? ==> SameView(old(tables), tables, old(places))
      ensures outcome.Panic? <==> page * PGSIZE >= MAXVA || V in PageLeaf(old(tables), root, page).flags
      ensures outcome.OutOfPages? ==> free == []
    {
      hide Inv, Leaf, LowTable, ForestOk, SameView, Rewritten, Ran, Px, IsRoot;
      ghost var m := View();
      var va := page * PGSIZE;
      var slot;
      slot, run := PageWalk(root, va, true);
      ghost var mid := View();
      LeafKept(m, mid, root, page);
      match slot
      case Panicked => outcome := Panic;
      case Missing =>
        NoTableNoLeaf(tables, root, page);
        outcome := OutOfPages;
      case Found(t, i) =>
        LeafThroughSlot(tables, root, page, t);
        if V in tables[t][i].flags {
          return Panic, run;
        }
        if own {
          HeldApart(View(), e.pa);
        }
        SetLeaf(root, page, t, i, e, own);
        RanThen(m, run, mid, [MapPage(root, page, e, own)], View());
        run := run + [MapPage(root, page, e, own)];
        RewrittenThrough(m.tables, m.places, mid.tables, mid.places, tables, root, page, e);
        outcome := Done;
    }

    /** The loop of map_pages. */
    method MapEach(root: nat, va: nat, size: nat, pa: nat, perm: set<Flag>, ghost own: bool)
      returns (outcome: Outcome, ghost n: nat, ghost run: seq<Event>)
      requires Valid() && IsRoot(places, root) && va + size > 0
      requires own ==> HoldsFrom(held, pa, 0, PageCount(va, size))
      modifies this
      ensures Valid() && Ran(old(View()), run, View()) && Extends(old(places), places)
      ensures Remapped(old(tables), tables, old(places), root, va / PGSIZE, n, MappedLeaf(pa, perm))
      ensures n <= PageCount(va, size) && (outcome.Done? <==> n == PageCount(va, size))
      ensures outcome.OutOfPages? ==> free == []
      ensures outcome.Panic? <==>
                var next := va / PGSIZE + n;
                n < PageCount(va, size) && (next * PGSIZE >= MAXVA || V in PageLeaf(old(tables), root, next).flags)
      ensures Passed(old(View()), View(), root, va / PGSIZE, pa, n, PageCount(va, size), own)
      ensures n > 0 ==> Within(va / PGSIZE + n)
    {
      hide Leaf, LowTable, Child, Px, Remapped, SameView, Rewritten, Inv, PageLeaf, Ran, IsRoot, HoldsFrom;
      hide Passed, Within;
      PassedNothing(View(), root, va / PGSIZE, pa, PageCount(va, size), own);
      ghost var page, total := va / PGSIZE, PageCount(va, size);
      var first := va / PGSIZE * PGSIZE;
      var last := (va + size - 1) / PGSIZE * PGSIZE;
      var target := pa;
      n, run := 0, [];
      RanNothing(View());
      RemappedNothing(tables, places, root, page, MappedLeaf(pa, perm));
      while first <= last
        invariant first == (page + n) * PGSIZE && target == pa + n * PGSIZE && n <= total
        invariant Valid() && IsRoot(places, root) && Ran(old(View()), run, View()) && Extends(old(places), places)
        invariant Remapped(old(tables), tables, old(places), root, page, n, MappedLeaf(pa, perm))
        invariant n > 0 ==> Within(page + n)
        invariant Passed(old(View()), View(), root, page, pa, n, total, own)
        decreases total - n
      {
        ghost var before := View();
        var e := Pte(target / PGSIZE * PGSIZE, perm + {V});
        PassedHolds(old(View()), View(), root, page, pa, n, total, own);
        NextUntouched(old(tables), before.tables, old(places), root, page, n, MappedLeaf(pa, perm));
        ghost var more;
        outcome, more := MapOne(root, first / PGSIZE, e, own);
        RanThen(old(View()), run, before, more, View());
        run := run + more;
        RootKept(before.places, places, root);
        if !outcome.Done? {
          RemapThroughSameView(old(tables), before.tables, tables, old(places), before.places, root, page, n,
              MappedLeaf(pa, perm));
          PassedStays(old(View()), before, View(), root, page, pa, n, total, own);
          return;
        }
        RemapNext(old(tables), before.tables, tables, old(places), before.places, root, page, n, MappedLeaf(pa, perm));
        PassedNext(old(View()), before, View(), root, page, pa, n, total, own);
        NextBelow(first / PGSIZE);
        first, target, n := first + PGSIZE, target + PGSIZE, n + 1;
      }
      outcome := Done;
    }

    /** map_pages: `n` pages get mapped, one after the other. All of them on success; otherwise the next
        page has no room for its tables, lies beyond MAXVA or is already mapped. On success
        every byte of the range is mapped. With `own` the entries take over the caller's references. */
    method MapPages(root: nat, va: nat, size: nat, pa: nat, perm: set<Flag>, ghost own: bool)
      returns (outcome: Outcome, ghost n: nat, ghost run: seq<Event>)
      requires Valid() && IsRoot(places, root) && va + size > 0
      requires own ==> HoldsFrom(held, pa, 0, PageCount(va, size))
      modifies this
      ensures Valid() && Ran(old(View()), run, View()) && Extends(old(places), places)
      ensures Remapped(old(tables), tables, old(places), root, va / PGSIZE, n, MappedLeaf(pa, perm))
      ensures n <= PageCount(va, size) && (outcome.Done? <==> n == PageCount(va, size))
      ensures outcome.OutOfPages? ==> free == []
      ensures outcome.Panic? <==>
                var next := va / PGSIZE + n;
                n < PageCount(va, size) && (next * PGSIZE >= MAXVA || V in PageLeaf(old(tables), root, next).flags)
      ensures owned == if own then Handed(old(owned), root, va / PGSIZE, n, pa) else old(owned)
      ensures held == if own then Released(old(held), pa, n) else old(held)
      ensures outcome.Done? && size > 0 ==> MapsRange(old(tables), tables, old(places), root, va, size, pa, perm)
    {
      hide Leaf, LowTable, Child, Px, Remapped, SameView, Inv, PageLeaf, Ran, IsRoot, HoldsFrom, Handed, Released;
      hide MapsRange, Within;
      outcome, n, run := MapEach(root, va, size, pa, perm, own);
      if outcome.Done? && size > 0 {
        AllMapped(old(tables), tables, old(places), root, va, size, pa, perm);
      }
    }

    /** user_vm_unmap: the leaf words of `n` pages are cleared and, if asked, one reference to each of their
        frames is given back. The panics are an unaligned address, a page beyond MAXVA, a page without a
        valid leaf word. What is reclaimed must be owned. */
    method UserVmUnmap(root: nat, va: nat, size: nat, reclaim: bool) returns (outcome: Outcome, ghost n: nat)
      requires Valid() && IsRoot(places, root)
      requires reclaim ==> OwnedWhereMapped(View(), root, va / PGSIZE, va + size)
      modifies this
      ensures places == old(places) && Valid() && Ran(old(View()), UnmapEvents(root, va / PGSIZE, n, reclaim), View())
      ensures Remapped(old(tables), tables, places, root, va / PGSIZE, n, _ => ZERO)
      ensures forall k :: va / PGSIZE <= k < va / PGSIZE + n ==>
                k * PGSIZE < MAXVA && IsLeaf(PageLeaf(old(tables), root, k))
      ensures outcome.Done? ==> va % PGSIZE == 0 && (n - 1) * PGSIZE < size <= n * PGSIZE
      ensures !outcome.Done? ==> outcome.Panic?
      ensures outcome.Panic? ==>
                va % PGSIZE != 0 ||
                var next := va / PGSIZE + n;
                next * PGSIZE < va + size && (next * PGSIZE >= MAXVA || !IsLeaf(PageLeaf(old(tables), root, next)))
    {
      hide Leaf, LowTable, Child, Px, Remapped, SameView, Rewritten, Inv, PageLeaf, Ran, IsRoot;
      n := 0;
      ghost var page := va / PGSIZE;
      RanNothing(View());
      assert UnmapEvents(root, page, 0, reclaim) == [];
      RemappedNothing(tables, places, root, page, _ => ZERO);
      if va % PGSIZE != 0 {
        return Panic, n;
      }
      var a := va;
      while a < va + size
        invariant a == (page + n) * PGSIZE && (n - 1) * PGSIZE < size && places == old(places)
        invariant Valid() && Ran(old(View()), UnmapEvents(root, page, n, reclaim), View())
        invariant Remapped(old(tables), tables, places, root, page, n, _ => ZERO)
        invariant forall k :: page <= k < page + n ==> k * PGSIZE < MAXVA && IsLeaf(PageLeaf(old(tables), root, k))
        invariant SameOwnersFrom(old(owned), owned, root, page + n)
        decreases va + size - a
      {
        NextUntouched(old(tables), tables, places, root, page, n, _ => ZERO);
        ghost var before := View();
        var done := UnmapOne(root, a / PGSIZE, reclaim);
        if !done {
          return Panic, n;
        }
        RanThen(old(View()), UnmapEvents(root, page, n, reclaim), before, [UnmapPage(root, page + n, reclaim)], View());
        UnmapOneMore(root, page, n, reclaim);
        RemapNext(old(tables), before.tables, tables, places, places, root, page, n, _ => ZERO);
        a, n := a + PGSIZE, n + 1;
      }
      outcome := Done;
    }

    /** One round of user_vm_unmap: false where it panics. */
    method UnmapOne(root: nat, page: nat, reclaim: bool) returns (done: bool)
      requires Valid() && IsRoot(places, root)
      requires reclaim && page * PGSIZE < MAXVA && V in PageLeaf(tables, root, page).flags ==> Slot(root, page) in owned
      modifies this
      ensures places == old(places) && Valid()
      ensures done == (page * PGSIZE < MAXVA && IsLeaf(PageLeaf(old(tables), root, page)))
      ensures done ==> Ran(old(View()), [UnmapPage(root, page, reclaim)], View())
      ensures done ==>
                Rewritten(old(tables), tables, places, root, page, ZERO)
                && owned == old(owned) - {Slot(root, page)}
      ensures !done ==> View() == old(View())
    {
      hide Leaf, LowTable, Child, Px, Rewritten, Inv, Ran, IsRoot, SameView;
      var slot, _ := PageWalk(root, page * PGSIZE, false);
      match slot
      case Panicked => done := false;
      case Missing =>
        NoTableNoLeaf(tables, root, page);
        done := false;
      case Found(t, i) =>
        LeafThroughSlot(tables, root, page, t);
        var e := tables[t][i];
        if V !in e.flags || e.flags == {V} {
          return false;
        }
        if reclaim {
          OwnerFound(View(), root, page);
        }
        ClearLeaf(root, page, t, i, reclaim);
        done := true;
    }
  }

  ghost function UnmapEvents(root: nat, page: nat, n: nat, reclaim: bool): seq<Event> {
    seq(n, i requires 0 <= i => UnmapPage(root, page + i, reclaim))
  }

  lemma UnmapOneMore(root: nat, page: nat, n: nat, reclaim: bool)
    ensures UnmapEvents(root, page, n + 1, reclaim) ==
              UnmapEvents(root, page, n, reclaim) + [UnmapPage(root, page + n, reclaim)]
  {
  }

  /** Every mapped page of the range has a reference of its own. */
  ghost predicate OwnedWhereMapped(m: Mem, root: nat, page: nat, end: nat) {
    forall k :: page <= k && k * PGSIZE < end && k * PGSIZE < MAXVA && V in PageLeaf(m.tables, root, k).flags ==>
      Slot(root, k) in m.owned
  }

  ghost predicate SameOwnersFrom(owned: map<Slot, nat>, owned': map<Slot, nat>, root: nat, page: nat) {
    forall k :: page <= k ==> (Slot(root, k) in owned' <==> Slot(root, k) in owned)
  }

  lemma OwnerFound(m: Mem, root: nat, page: nat)
    requires Inv(m) && Slot(root, page) in m.owned
    ensures m.owned[Slot(root, page)] in m.refs && PageLeaf(m.tables, root, page).pa == m.owned[Slot(root, page)]
    ensures page < NPAGES
  {
    hide ForestOk;
    assert SlotOk(m.tables, m.places, Slot(root, page), m.owned[Slot(root, page)]);
  }

  /** How many pages a range touches. */
  function PageCount(va: nat, size: nat): nat
    requires va + size > 0
  {
    var last := (va + size - 1) / PGSIZE;
    if va / PGSIZE <= last then last + 1 - va / PGSIZE else 0
  }

  /** The pages below number `page` are below MAXVA. */
  predicate Within(page: nat) {
    page * PGSIZE <= MAXVA
  }

  lemma NextBelow(page: nat)
    requires page * PGSIZE < MAXVA
    ensures Within(page + 1)
  {
  }

  /** All pages of a range are mapped: so are all its bytes. */
  lemma AllMapped(ts: Tables, ts': Tables, at: Places, root: nat, va: nat, size: nat, pa: nat, perm: set<Flag>)
    requires size > 0 && Remapped(ts, ts', at, root, va / PGSIZE, PageCount(va, size), MappedLeaf(pa, perm))
    requires Within(va / PGSIZE + PageCount(va, size))
    ensures MapsRange(ts, ts', at, root, va, size, pa, perm)
  {
    hide Leaf, Touched;
    forall r, a | r in at && at[r] == Place(r, []) && 0 <= a < MAXVA
      ensures RangeAt(ts, ts', root, va, size, pa, perm, r, a)
    {
      TouchedIs(a, va, size);
    }
  }

  /** A range without bytes has a page all the same, unless it starts on a page boundary. */
  lemma EmptyRange(va: nat)
    requires va > 0
    ensures PageCount(va, 0) == if va % PGSIZE == 0 then 0 else 1
  {
    if va % PGSIZE == 0 {
      assert (va - 1) / PGSIZE == va / PGSIZE - 1;
    } else {
      assert (va - 1) / PGSIZE == va / PGSIZE;
    }
  }

  /** The frame of page `i` of a range that starts at `pa`. */
  function Frame(pa: nat, i: nat): nat {
    (pa + i * PGSIZE) / PGSIZE * PGSIZE
  }

  /** The caller holds the frames from the `i`-th on. */
  ghost predicate HoldsFrom(held: map<nat, nat>, pa: nat, i: nat, total: nat) {
    forall j :: i <= j < total ==> Held(held, Frame(pa, j)) > 0
  }

  /** The entries with a reference after the first `n` pages of a range took over theirs. */
  ghost function Handed(owned: map<Slot, nat>, root: nat, page: nat, n: nat, pa: nat): map<Slot, nat> {
    if n == 0 then owned else Handed(owned, root, page, n - 1, pa)[Slot(root, page + n - 1) := Frame(pa, n - 1)]
  }

  /** The holds that are left then. */
  ghost function Released(held: map<nat, nat>, pa: nat, n: nat): map<nat, nat> {
    if n == 0 then held
    else
      var before, f := Released(held, pa, n - 1), Frame(pa, n - 1);
      before[f := if Held(before, f) > 0 then Held(before, f) - 1 else 0]
  }

  /** With `own`, the entries of the first `n` pages have taken over the caller's references, and the
      caller still holds those of the other pages. */
  ghost predicate Passed(m: Mem, m': Mem, root: nat, page: nat, pa: nat, n: nat, total: nat, own: bool) {
    && (own ==> HoldsFrom(m'.held, pa, n, total))
    && m'.owned == (if own then Handed(m.owned, root, page, n, pa) else m.owned)
    && m'.held == (if own then Released(m.held, pa, n) else m.held)
  }

  lemma PassedNothing(m: Mem, root: nat, page: nat, pa: nat, total: nat, own: bool)
    requires own ==> HoldsFrom(m.held, pa, 0, total)
    ensures Passed(m, m, root, page, pa, 0, total, own)
  {
  }

  lemma PassedStays(m: Mem, b: Mem, m': Mem, root: nat, page: nat, pa: nat, n: nat, total: nat, own: bool)
    requires Passed(m, b, root, page, pa, n, total, own) && m'.owned == b.owned && m'.held == b.held
    ensures Passed(m, m', root, page, pa, n, total, own)
  {
  }

  lemma PassedHolds(m: Mem, m': Mem, root: nat, page: nat, pa: nat, n: nat, total: nat, own: bool)
    requires Passed(m, m', root, page, pa, n, total, own) && n < total
    ensures own ==> Held(m'.held, Frame(pa, n)) > 0
  {
  }

  lemma PassedNext(m: Mem, b: Mem, m': Mem, root: nat, page: nat, pa: nat, n: nat, total: nat, own: bool)
    requires Passed(m, b, root, page, pa, n, total, own) && n < total && (own ==> Held(b.held, Frame(pa, n)) > 0)
    requires m'.owned == if own then b.owned[Slot(root, page + n) := Frame(pa, n)] else b.owned
    requires m'.held == if own then b.held[Frame(pa, n) := Held(b.held, Frame(pa, n)) - 1] else b.held
    ensures Passed(m, m', root, page, pa, n + 1, total, own)
  {
    if own {
      HoldsNext(b.held, pa, n, total);
    }
  }

  /** The entries of the range have their frames, and all others are as they were. */
  lemma {:induction false} HandedAt(owned: map<Slot, nat>, root: nat, page: nat, n: nat, pa: nat, s: Slot)
    ensures var mine := s.root == root && page <= s.page < page + n;
            && (s in Handed(owned, root, page, n, pa) <==> s in owned || mine)
            && (mine ==> Handed(owned, root, page, n, pa)[s] == Frame(pa, s.page - page))
            && (!mine && s in owned ==> Handed(owned, root, page, n, pa)[s] == owned[s])
  {
    if n > 0 {
      HandedAt(owned, root, page, n - 1, pa, s);
    }
  }

  /** One hold of each frame of the range is gone, and all others are as they were. */
  lemma {:induction false} ReleasedAt(held: map<nat, nat>, pa: nat, n: nat, f: nat)
    requires HoldsFrom(held, pa, 0, n)
    ensures Held(Released(held, pa, n), f) ==
            Held(held, f) - if exists j :: 0 <= j < n && Frame(pa, j) == f then 1 else 0
  {
    if n > 0 {
      ReleasedAt(held, pa, n - 1, f);
      assert Held(held, Frame(pa, n - 1)) > 0;
      forall j | 0 <= j < n - 1
        ensures Frame(pa, j) != Frame(pa, n - 1)
      {
        FramesDiffer(pa, j, n - 1);
      }
      ReleasedAt(held, pa, n - 1, Frame(pa, n - 1));
    }
  }

  lemma HoldsNext(held: map<nat, nat>, pa: nat, n: nat, total: nat)
    requires HoldsFrom(held, pa, n, total) && n < total && Held(held, Frame(pa, n)) > 0
    ensures HoldsFrom(held[Frame(pa, n) := Held(held, Frame(pa, n)) - 1], pa, n + 1, total)
  {
    forall j | n + 1 <= j < total
      ensures Frame(pa, j) != Frame(pa, n)
    {
      FramesDiffer(pa, n, j);
    }
  }

  lemma FramesDiffer(pa: nat, i: nat, j: nat)
    requires i < j
    ensures Frame(pa, i) < Frame(pa, j)
  {
    assert pa + j * PGSIZE >= pa + i * PGSIZE + PGSIZE;
  }

  lemma NextUntouched(ts: Tables, ts': Tables, at: Places, root: nat, first: nat, n: nat, leaf: nat -> Pte)
    requires Remapped(ts, ts', at, root, first, n, leaf) && IsRoot(at, root)
    ensures (first + n) * PGSIZE < MAXVA ==> PageLeaf(ts', root, first + n) == PageLeaf(ts, root, first + n)
  {
    if (first + n) * PGSIZE < MAXVA {
      NextPageUntouched(ts, ts', at, root, first, n, leaf);
    }
  }

  lemma RootKept(at: Places, at': Places, root: nat)
    requires Extends(at, at') && IsRoot(at, root)
    ensures IsRoot(at', root)
  {
  }

  /** Walking keeps the leaf words, the roots and the pages of the allocator. */
  lemma LeafKept(m: Mem, m': Mem, root: nat, page: nat)
    requires SameView(m.tables, m'.tables, m.places) && Extends(m.places, m'.places) && IsRoot(m.places, root)
    ensures page * PGSIZE < MAXVA ==> PageLeaf(m'.tables, root, page) == PageLeaf(m.tables, root, page)
    ensures IsRoot(m'.places, root)
  {
  }

  lemma RewrittenThrough(ts: Tables, at: Places, mid: Tables, at': Places, ts': Tables, root: nat, page: nat, e: Pte)
    requires SameView(ts, mid, at) && Extends(at, at') && Rewritten(mid, ts', at', root, page, e)
    ensures Rewritten(ts, ts', at, root, page, e)
  {
  }

  lemma GiveKeepsRest(m: Mem)
    ensures forall p :: p in m.refs ==> Give(m, p) == m.(refs := Give(m, p).refs, free := Give(m, p).free)
  {
  }

  lemma WriteRewrites(m: Mem, root: nat, page: nat, e: Pte)
    requires Inv(m) && IsRoot(m.places, root) && page < NPAGES && LowTable(m.tables, root, page * PGSIZE).Some?
    ensures Rewritten(m.tables, WriteLeaf(m.tables, root, page, e), m.places, root, page, e)
  {
    hide Leaf, CountsExact, SlotsOk, FreeExact;
    var va := page * PGSIZE;
    LowTablePlace(m.tables, m.places, m.free, root, va);
    forall r, vb | r in m.places && m.places[r] == Place(r, []) && 0 <= vb < MAXVA
      ensures Leaf(WriteLeaf(m.tables, root, page, e), r, vb) ==
                if r == root && vb / PGSIZE == page then e else Leaf(m.tables, r, vb)
    {
      LeafWrite(m.tables, m.places, m.free, root, va, e, r, vb);
    }
  }

  /** The indices above a level of the walk. */
  function UpperPath(va: nat, level: nat): seq<nat> {
    if level == 0 then [Px(2, va), Px(1, va)] else if level == 1 then [Px(2, va)] else []
  }

  lemma RanNothing(m: Mem)
    ensures Ran(m, [], m)
  {
  }

  lemma PlacesAreTables(m: Mem)
    requires Inv(m)
    ensures m.places.Keys == m.tables.Keys
  {
  }

  lemma ChildPlaced(m: Mem, t: nat, i: nat)
    requires Inv(m) && t in m.places && |m.places[t].path| < 2 && i < 512
    ensures t in m.tables
    ensures V in m.tables[t][i].flags ==>
              m.tables[t][i].pa in m.places
                  && m.places[m.tables[t][i].pa] == Place(m.places[t].root, m.places[t].path + [i])
  {
    hide CountsExact, SlotsOk, FreeExact;
    assert TableOk(m.tables, m.places, t);
  }

  /** A new table changes no view. */
  lemma TableKeepsView(m: Mem, t: nat, i: nat)
    requires Inv(m) && Enabled(m, NewTable(t, i))
    ensures SameView(m.tables, TableStep(m, t, i).tables, m.places) && Extends(m.places, TableStep(m, t, i).places)
    ensures m.free[0] !in m.tables && m.free[0] !in m.places
  {
    hide CountsExact, SlotsOk, Leaf, TableOk;
    TakenIsFresh(m);
    forall u, va | u in m.places && m.places[u] == Place(u, []) && 0 <= va < MAXVA
      ensures Leaf(TableStep(m, t, i).tables, u, va) == Leaf(m.tables, u, va)
    {
      LeafAfterNewTable(m.tables, m.places, m.free, t, i, m.free[0], EmptyTable(), u, va);
    }
  }

  lemma RootKeepsView(m: Mem)
    requires Inv(m) && m.free != []
    ensures SameView(m.tables, RootStep(m).tables, m.places) && m.free[0] !in m.places
    ensures forall page :: 0 <= page < NPAGES ==> PageLeaf(RootStep(m).tables, m.free[0], page) == ZERO
  {
    hide CountsExact, SlotsOk, Leaf, TableOk;
    TakenIsFresh(m);
    forall u, va | u in m.places && m.places[u] == Place(u, []) && 0 <= va < MAXVA
      ensures Leaf(RootStep(m).tables, u, va) == Leaf(m.tables, u, va)
    {
      LeafAfterNewRoot(m.tables, m.places, m.free, m.free[0], EmptyTable(), u, va);
    }
    forall page | 0 <= page < NPAGES
      ensures PageLeaf(RootStep(m).tables, m.free[0], page) == ZERO
    {
      EmptyRoot(RootStep(m).tables, m.free[0], page * PGSIZE);
    }
  }

  lemma EmptyRoot(ts: Tables, root: nat, va: nat)
    requires root in ts && ts[root] == EmptyTable()
    ensures Leaf(ts, root, va) == ZERO
  {
  }

  lemma LastHold(m: Mem, p: nat)
    requires Inv(m) && Enabled(m, Release(p))
    ensures m.refs[p] >= 1 && p !in m.free
  {
    HeldApart(m, p);
  }
}
