/** The kernel routines behind the copy-on-write machine, as they update the page tables, the
    page_ref_count array and the free list in place. Each is proved to be one event of the
    machine (or, for loops over pages, the run of events it stands for). */
module CowKernel {
  import opened Basics
  import opened CopyOnWrite

  class Kernel {
    var heaps: Heaps
    var tops: seq<nat>
    var refs: array<nat>
    var free: seq<nat>
    var frames: array<Page>
    var kernel: set<nat>

    ghost function View(): Machine
      reads this, refs, frames
    {
      Machine(heaps, tops, refs[..], free, frames[..], kernel)
    }

    /** get_page_ref */
    method GetPageRef(f: nat) returns (n: nat)
      requires f < refs.Length
      ensures n == refs[f]
    {
      n := refs[f];
    }

    /** inc_page_ref */
    method IncPageRef(f: nat)
      requires f < refs.Length
      modifies refs
      ensures refs[..] == old(refs[..])[f := old(refs[f]) + 1]
    {
      refs[f] := refs[f] + 1;
    }

    /** dec_page_ref: never below zero. */
    method DecPageRef(f: nat)
      requires f < refs.Length
      modifies refs
      ensures refs[..] == old(refs[..])[f := if old(refs[f]) > 0 then old(refs[f]) - 1 else 0]
    {
      if refs[f] > 0 {
        refs[f] := refs[f] - 1;
      }
    }

    /** alloc_page: a NULL result (None) leaves everything unchanged. */
    method AllocPage() returns (f: Option<nat>)
      requires free != [] ==> free[0] < refs.Length
      modifies this`free, refs
      ensures f == if old(free) == [] then None else Some(old(free)[0])
      ensures f.Some? ==> free == old(free)[1..] && refs[..] == old(refs[..])[f.value := 1]
      ensures f.None? ==> free == old(free) && refs[..] == old(refs[..])
    {
      if free == [] {
        f := None;
      } else {
        f := Some(free[0]);
        refs[free[0]] := 1;
        free := free[1..];
      }
    }

    /** free_page */
    method FreePage(f: nat)
      requires f < refs.Length
      modifies this`free, refs
      ensures View() == FreeFrame(old(View()), f)
    {
      if refs[f] > 1 {
        refs[f] := refs[f] - 1;
        return;
      }
      refs[f] := 0;
      free := [f] + free;
    }

    /** One more heap page: the growth steps of sys_user_allocate_mem. */
    method GrowHeap(p: nat) returns (ok: bool)
      requires p < |tops| && FramesInRange(View())
      requires free != [] ==> free[0] < refs.Length
      modifies this`free, this`heaps, this`tops, refs
      ensures ok <==> old(free) != []
      ensures ok ==> var m := old(View());
                     var e := Grow(p, m.tops[p], m.frames[m.free[0]]);
                     Enabled(m, e) && View() == Step(m, e)
      ensures !ok ==> View() == old(View())
    {
      var f := AllocPage();
      if f.None? {
        return false;
      }
      heaps := heaps[Slot(p, tops[p]) := Pte(f.value, true, false)];
      tops := tops[p := tops[p] + 1];
      ok := true;
    }

    /** The HEAP_SEGMENT case of do_fork, from heap_bottom to heap_top. */
    method ForkHeap(parent: nat, child: nat)
      requires Enabled(View(), Fork(parent, child))
      modifies this`heaps, this`tops, refs
      ensures View() == Step(old(View()), Fork(parent, child))
    {
      ghost var m := View();
      var v := HEAP_BOTTOM;
      var top := tops[parent];
      while v < top
        invariant HEAP_BOTTOM <= v <= top
        invariant View() == ForkPages(m, parent, child, v)
        invariant tops == m.tops
      {
        var k := Slot(parent, v);
        if k in heaps {
          var e := heaps[k];
          IncPageRef(e.frame);
          heaps := heaps[Slot(child, v) := Shared(e)];
          heaps := heaps[k := Shared(e)];
        }
        v := v + 1;
      }
      tops := tops[child := top];
    }

    /** The copy-on-write branch of handle_user_page_fault. */
    method HandleStoreFault(k: Slot)
      requires Enabled(View(), StoreFault(k))
      modifies this`free, this`heaps, refs, frames
      ensures View() == Step(old(View()), StoreFault(k))
    {
      var shared := heaps[k].frame;
      var target := shared;
      var n := GetPageRef(shared);
      if n > 1 {
        var f := AllocPage();
        target := f.value;
        frames[target] := frames[shared];
        DecPageRef(shared);
      }
      heaps := heaps[k := Pte(target, true, false)];
    }

    /** The body of the user_vm_unmap loop with free != 0. */
    method UnmapPage(k: Slot)
      requires Enabled(View(), Unmap(k))
      modifies this`free, this`heaps, refs
      ensures View() == Step(old(View()), Unmap(k))
    {
      FreePage(heaps[k].frame);
      heaps := heaps - {k};
    }

    /** user_vm_unmap with free != 0 over `n` pages: one Unmap event a page, up to the first page that is
        not mapped, where the kernel panics. */
    method UserVmUnmap(p: nat, v: nat, n: nat) returns (ok: bool, ghost done: nat)
      requires FramesInRange(View()) && (free != [] ==> free[0] < refs.Length)
      modifies this`free, this`heaps, refs
      ensures ok <==> forall w :: v <= w < v + n ==> Slot(p, w) in old(heaps)
      ensures done <= n && Exec(old(View()), UnmapEvents(p, v, done)) == Some(View())
      ensures if ok then done == n else Slot(p, v + done) !in old(heaps)
    {
      hide Exec, FreeFrame;
      ghost var m := View();
      done, ok := 0, true;
      var i := 0;
      StartsEmpty(m, p, v);
      while i < n
        invariant 0 <= i == done <= n && ok
        invariant Exec(m, UnmapEvents(p, v, i)) == Some(View())
        invariant FramesInRange(View()) && (free != [] ==> free[0] < refs.Length)
        invariant forall w :: v <= w < v + i ==> Slot(p, w) in old(heaps)
        invariant forall k :: k in heaps <==> k in old(heaps) && !(k.pid == p && v <= k.vpn < v + i)
      {
        if Slot(p, v + i) !in heaps {
          ok := false;
          return;
        }
        ghost var now := View();
        UnmapPage(Slot(p, v + i));
        UnmapsOneMore(m, p, v, i, now);
        FreesInRange(now, Slot(p, v + i));
        i := i + 1;
        done := i;
      }
    }

    /** A user store that the hardware lets through. */
    method UserStore(p: nat, va: nat, b: Byte)
      requires Enabled(View(), Store(p, va, b))
      modifies frames
      ensures View() == Step(old(View()), Store(p, va, b))
    {
      var f := heaps[Slot(p, va / PGSIZE)].frame;
      frames[f] := frames[f][va % PGSIZE := b];
    }
  }

  ghost function UnmapEvents(p: nat, v: nat, n: nat): seq<Event> {
    seq(n, i requires 0 <= i => Unmap(Slot(p, v + i)))
  }

  lemma StartsEmpty(m: Machine, p: nat, v: nat)
    ensures Exec(m, UnmapEvents(p, v, 0)) == Some(m)
  {
  }

  lemma UnmapsOneMore(m: Machine, p: nat, v: nat, i: nat, now: Machine)
    requires Exec(m, UnmapEvents(p, v, i)) == Some(now) && Enabled(now, Unmap(Slot(p, v + i)))
    ensures Exec(m, UnmapEvents(p, v, i + 1)) == Some(Step(now, Unmap(Slot(p, v + i))))
  {
    hide Enabled, Step;
    assert UnmapEvents(p, v, i + 1)[..i] == UnmapEvents(p, v, i);
  }

  lemma FreesInRange(m: Machine, k: Slot)
    requires Enabled(m, Unmap(k))
    ensures var m' := Step(m, Unmap(k));
            && FramesInRange(m') && (m'.free != [] ==> m'.free[0] < |m'.refs|) && m'.heaps == m.heaps - {k}
  {
  }
}
