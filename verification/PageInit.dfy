/** Building the list of free physical pages at boot (kernel/pmm.c). */
module PageInit {
  import opened Basics
  import opened Chains

  const PGSIZE: nat := 4096
  const NULL: int := 0

  function RoundUp(a: nat): nat
    requires a > 0
  {
    ((a - 1) / PGSIZE + 1) * PGSIZE
  }

  /** `n` consecutive pages from `start`, the highest first. */
  ghost function PagesDown(start: nat, n: nat): (s: seq<int>)
    ensures |s| == n
  {
    if n == 0 then [] else [start + (n - 1) * PGSIZE] + PagesDown(start, n - 1)
  }

  lemma {:induction false} PagesDownAre(start: nat, n: nat, p: int)
    requires start % PGSIZE == 0
    ensures p in PagesDown(start, n) <==> p % PGSIZE == 0 && start <= p < start + n * PGSIZE
  {
    if n > 0 {
      PagesDownAre(start, n - 1, p);
    }
  }

  class PageList {
    const memStart: nat
    const memEnd: nat
    var refs: array<nat>
    var head: int
    var next: Links
    ghost var free: seq<int>

    ghost predicate Valid()
      reads this
    {
      Linked(next, NULL, head, free) && NoDuplicates(free) && 0 < memStart && memStart % PGSIZE == 0
    }

    function PageIndex(p: nat): (i: nat)
      requires memStart <= p
    {
      (p - memStart) / PGSIZE
    }

    /** get_page_ref: 0 outside the counted range. */
    function Counted(p: nat): (n: nat)
      requires memStart <= p
      reads this, refs
    {
      if PageIndex(p) < refs.Length then refs[PageIndex(p)] else 0
    }

    /** free_page. `ok` is false where the kernel panics, at an address that is no page of the list's
        memory. A page that loses its last reference must not be on the list. */
    method FreePage(p: nat) returns (ok: bool)
      requires Valid() && (memStart <= p && Counted(p) <= 1 ==> p !in free)
      modifies this`head, this`next, this`free, refs
      ensures Valid() && (ok <==> p % PGSIZE == 0 && memStart <= p < memEnd)
      ensures !ok || old(Counted(p)) > 1 ==> free == old(free)
      ensures ok && old(Counted(p)) <= 1 ==> free == [p] + old(free)
      ensures refs[..] == if !ok || PageIndex(p) >= refs.Length then old(refs[..])
                          else old(refs[..])[PageIndex(p) := if old(Counted(p)) > 1 then old(Counted(p)) - 1 else 0]
    {
      if p % PGSIZE != 0 || p < memStart || p >= memEnd {
        return false;
      }
      ok := true;
      var i := PageIndex(p);
      if i < refs.Length {
        if refs[i] > 1 {
          refs[i] := refs[i] - 1;
          return;
        } else {
          refs[i] := 0;
        }
      }
      LinkedPush(next, NULL, head, free, p);
      next := next[p := head];
      head := p;
      free := [p] + free;
    }


    /** create_freepage_list: the list holds exactly the aligned pages that end strictly below
        `end`, from the highest address down without gaps. */
    method CreateFreePageList(start: nat, end: nat)
      requires 0 < memStart == start && memStart % PGSIZE == 0 && end <= memEnd
      requires refs.Length > 0 && forall i :: 0 <= i < refs.Length ==> refs[i] == 0
      modifies this`head, this`next, this`free, refs
      ensures Valid()
      ensures forall p: int :: p in free <==> p % PGSIZE == 0 && start <= p && p + PGSIZE < end
      ensures free == PagesDown(start, |free|)
      ensures forall i :: 0 <= i < refs.Length ==> refs[i] == 0
    {
      hide Linked, NoDuplicates, PageIndex, RoundUp, PagesDown;
      head := NULL;
      free := [];
      ListStarts(next, start);
      var p := RoundUp(start);
      ghost var n := 0;
      while p + PGSIZE < end
        invariant Valid()
        invariant p == start + n * PGSIZE
        invariant free == PagesDown(start, n)
        invariant n == 0 || p < end
        invariant forall i :: 0 <= i < refs.Length ==> refs[i] == 0
      {
        PageAbove(start, n);
        InitPage(p);
        p := p + PGSIZE;
        n := n + 1;
      }
      forall q: int
        ensures q in free <==> q % PGSIZE == 0 && start <= q && q + PGSIZE < end
      {
        PagesDownAre(start, n, q);
      }
    }

    /** One page of the loop: its count is cleared and it goes on the list. */
    method InitPage(p: nat)
      requires Valid() && p % PGSIZE == 0 && memStart <= p < memEnd && p !in free
      requires refs.Length > 0 && forall i :: 0 <= i < refs.Length ==> refs[i] == 0
      modifies this`head, this`next, this`free, refs
      ensures Valid() && free == [p] + old(free)
      ensures forall i :: 0 <= i < refs.Length ==> refs[i] == 0
    {
      hide Linked, NoDuplicates, PageIndex;
      refs[Counted(p)] := 0;
      var _ := FreePage(p);
    }
  }

  lemma ListStarts(next: Links, start: nat)
    requires 0 < start && start % PGSIZE == 0
    ensures Linked(next, NULL, NULL, []) && NoDuplicates([]) && PagesDown(start, 0) == [] && RoundUp(start) == start
  {
  }

  lemma PageAbove(start: nat, n: nat)
    requires start % PGSIZE == 0
    ensures (start + n * PGSIZE) % PGSIZE == 0 && start + n * PGSIZE !in PagesDown(start, n)
    ensures PagesDown(start, n + 1) == [start + n * PGSIZE] + PagesDown(start, n)
  {
    PagesDownAre(start, n, start + n * PGSIZE);
  }
}
