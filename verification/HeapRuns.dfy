/** The heap theorems: every run of malloc and free keeps the heap well formed. */
module HeapRuns {
  import opened Basics
  import opened HeapBlocks
  import opened HeapInvariant

  ghost predicate PairwiseApart(list: seq<Block>) {
    forall i, j :: 0 <= i < j < |list| ==> Disjoint(list[i], list[j])
  }

  ghost predicate AllocOk(alloc: seq<Block>, lo: int, hi: int) {
    && PairwiseApart(alloc)
    && forall i :: 0 <= i < |alloc| ==> alloc[i].size > 0 && lo <= alloc[i].addr && End(alloc[i]) <= hi
  }

  ghost predicate FreeOk(free: seq<Block>, lo: int, hi: int, alloc: seq<Block>) {
    Spaced(free) && BlocksOk(free, lo, hi, alloc)
  }

  /** The bytes accounted for: both lists, and a header for every dropped empty block. */
  function Accounted(h: Heap): int {
    Total(h.free) + Total(h.alloc) + HEADER * h.lost
  }

  ghost predicate Inv(h: Heap) {
    && 0 < h.bottom <= h.top <= STACK_BOTTOM
    && h.lost >= 0
    && FreeOk(h.free, h.bottom, h.top, h.alloc)
    && AllocOk(h.alloc, h.bottom, h.top)
    && Accounted(h) == h.top - h.bottom
  }

  // ---------------------------------------------------------------- allocation from the free list

  lemma PushAlloc(b: Block, alloc: seq<Block>, lo: int, hi: int)
    requires AllocOk(alloc, lo, hi) && Apart(b, alloc) && b.size > 0 && lo <= b.addr && End(b) <= hi
    ensures AllocOk([b] + alloc, lo, hi) && Total([b] + alloc) == Total(alloc) + HEADER + b.size
  {
    var all := [b] + alloc;
    assert all[1..] == alloc;
    assert forall i :: 1 <= i < |all| ==> all[i] == alloc[i - 1];
  }

  lemma PushOthers(b: Block, lo: int, hi: int, a: Block, others: seq<Block>)
    requires BlockOk(b, lo, hi, others) && Disjoint(b, a)
    ensures BlockOk(b, lo, hi, [a] + others)
  {
  }

  /** Taking a fitting block leaves a list that stays clear of what was taken. */
  lemma TakeExact(free: seq<Block>, i: nat, lo: int, hi: int, alloc: seq<Block>)
    requires FreeOk(free, lo, hi, alloc) && i < |free|
    ensures FreeOk(Remove(free, i), lo, hi, [free[i]] + alloc)
  {
    SpacedWithout(free, i);
    var r := Remove(free, i);
    forall j | 0 <= j < |r|
      ensures BlockOk(r[j], lo, hi, [free[i]] + alloc)
    {
      var k := if j < i then j else j + 1;
      assert BlockOk(free[k], lo, hi, alloc);
      PushOthers(r[j], lo, hi, free[i], alloc);
    }
  }

  lemma TakeFront(free: seq<Block>, i: nat, n: int, lo: int, hi: int, alloc: seq<Block>)
    requires FreeOk(free, lo, hi, alloc) && i < |free| && n > 0 && free[i].size >= n + HEADER
    requires forall k :: 0 <= k < |alloc| ==> alloc[k].size >= 0
    ensures var taken, rest := Block(free[i].addr, n), Block(free[i].addr + HEADER + n, free[i].size - n - HEADER);
            FreeOk(free[i := rest], lo, hi, [taken] + alloc) && Apart(taken, alloc)
  {
    var b := free[i];
    var taken, rest := Block(b.addr, n), Block(b.addr + HEADER + n, b.size - n - HEADER);
    var r := free[i := rest];
    assert BlockOk(b, lo, hi, alloc);
    forall k | 0 <= k < |alloc|
      ensures Disjoint(taken, alloc[k]) && Disjoint(rest, alloc[k])
    {
      assert Disjoint(b, alloc[k]);
    }
    forall j | 0 <= j < |r|
      ensures BlockOk(r[j], lo, hi, [taken] + alloc)
    {
      assert BlockOk(free[j], lo, hi, alloc);
      PushOthers(r[j], lo, hi, taken, alloc);
    }
  }

  lemma FirstFitKeepsInv(h: Heap, n: int)
    requires Inv(h) && n > 0
    ensures Inv(FirstFit(h, n).0)
  {
    hide Total, Spaced, BlocksOk, FitIndex;
    FitIndexFits(h.free, n);
    if FitIndex(h.free, n).Some? {
      var i := FitIndex(h.free, n).value;
      var b := h.free[i];
      var taken := Block(b.addr, n);
      assert BlockOk(b, h.bottom, h.top, h.alloc) by { BlockAt(h.free, h.bottom, h.top, h.alloc, i); }
      if b.size == n {
        TakeExact(h.free, i, h.bottom, h.top, h.alloc);
        TotalRemove(h.free, i);
        PushAlloc(b, h.alloc, h.bottom, h.top);
      } else {
        TakeFront(h.free, i, n, h.bottom, h.top, h.alloc);
        TotalReplace(h.free, i, Block(b.addr + HEADER + n, b.size - n - HEADER));
        PushAlloc(taken, h.alloc, h.bottom, h.top);
      }
    }
  }

  lemma BlockAt(free: seq<Block>, lo: int, hi: int, alloc: seq<Block>, i: nat)
    requires BlocksOk(free, lo, hi, alloc) && i < |free|
    ensures BlockOk(free[i], lo, hi, alloc)
  {
  }

  // ---------------------------------------------------------------- growth

  /** Raising the top keeps the lists. */
  lemma RaiseTop(free: seq<Block>, alloc: seq<Block>, lo: int, hi: int, hi': int)
    requires FreeOk(free, lo, hi, alloc) && AllocOk(alloc, lo, hi) && hi <= hi'
    ensures FreeOk(free, lo, hi', alloc) && AllocOk(alloc, lo, hi')
  {
    forall i | 0 <= i < |free|
      ensures BlockOk(free[i], lo, hi', alloc)
    {
      assert BlockOk(free[i], lo, hi, alloc);
    }
  }

  /** A block above all others joins the free list. */
  lemma InsertAbove(free: seq<Block>, alloc: seq<Block>, b: Block, lo: int, hi: int, hi': int)
    requires FreeOk(free, lo, hi, alloc) && AllocOk(alloc, lo, hi)
    requires lo <= hi <= b.addr && b.size > 0 && End(b) <= hi'
    ensures FreeOk(InsertFree(free, b), lo, hi', alloc) && Total(InsertFree(free, b)) == Total(free) + HEADER + b.size
    ensures InsertFree(free, b) == free + [b]
  {
    hide Total;
    RaiseTop(free, alloc, lo, hi, hi');
    assert Apart(b, free) && forall j :: 0 <= j < |free| ==> free[j].addr < b.addr by {
      forall i | 0 <= i < |free|
          ensures Disjoint(b, free[i]) && free[i].addr < b.addr { BlockAt(free, lo, hi, alloc, i); }
    }
    assert BlockOk(b, lo, hi', alloc);
    InsertAtEnd(free, b);
    InsertKeepsOrder(free, b, lo, hi', alloc);
    assert free == [] ==> InsertFree(free, b) == Insert(free, b) == [b];
  }

  lemma GrowPageKeepsInv(h: Heap)
    requires Inv(h) && h.top + PGSIZE <= STACK_BOTTOM
    ensures Inv(GrowPage(h))
    ensures GrowPage(h).free == h.free + [Block(h.top, PGSIZE - HEADER)]
  {
    hide FreeOk, AllocOk, InsertFree, Total;
    RaiseTop(h.free, h.alloc, h.bottom, h.top, h.top + PGSIZE);
    InsertAbove(h.free, h.alloc, Block(h.top, PGSIZE - HEADER), h.bottom, h.top, h.top + PGSIZE);
  }

  /** The growth loop: everything in use lies below `start`, and the part of the new block that is
      still missing lies above the top. */
  lemma GrowOntoKeepsInv(h: Heap, start: int, n: int, rest: int)
    requires 0 < h.bottom <= start <= h.top && h.lost >= 0 && n > 0 && rest + HEADER > 0
    requires FreeOk(h.free, h.bottom, start, h.alloc) && AllocOk(h.alloc, h.bottom, start)
    requires Accounted(h) == start - h.bottom && h.top == start + HEADER + n - rest
    requires GrowOnto(h, start, n, rest).0.top <= STACK_BOTTOM
    ensures Inv(GrowOnto(h, start, n, rest).0)
  {
    hide FreeOk, AllocOk, InsertFree, Total;
    var taken := Block(start, n);
    var pages := PagesFor(rest);
    var top := h.top + pages * PGSIZE;
    var over := pages * PGSIZE - rest;
    assert over >= 0 && End(taken) == top - over;
    assert Apart(taken, h.alloc) && Apart(taken, h.free) by { AboveApart(h.free, h.alloc, h.bottom, start, taken); }
    RaiseTop(h.free, h.alloc, h.bottom, start, top - over);
    PushAlloc(taken, h.alloc, h.bottom, top - over);
    FreeBesides(h.free, h.alloc, h.bottom, start, top - over, taken);
    RaiseTop(h.free, [taken] + h.alloc, h.bottom, top - over, top);
    if over != 0 {
      var spare := Block(top - over, PGSIZE + over - HEADER);
      InsertAbove(h.free, [taken] + h.alloc, spare, h.bottom, top - over, top + PGSIZE);
      RaiseTop(h.free, [taken] + h.alloc, h.bottom, top - over, top + PGSIZE);
    }
  }

  lemma AboveApart(free: seq<Block>, alloc: seq<Block>, lo: int, hi: int, b: Block)
    requires FreeOk(free, lo, hi, alloc) && AllocOk(alloc, lo, hi) && hi <= b.addr
    ensures Apart(b, free) && Apart(b, alloc)
  {
    forall i | 0 <= i < |free| ensures Disjoint(b, free[i]) { BlockAt(free, lo, hi, alloc, i); }
  }

  lemma FreeBesides(free: seq<Block>, alloc: seq<Block>, lo: int, hi: int, hi': int, b: Block)
    requires FreeOk(free, lo, hi, alloc) && hi <= b.addr && hi <= hi'
    ensures FreeOk(free, lo, hi', [b] + alloc)
  {
    forall i | 0 <= i < |free|
      ensures BlockOk(free[i], lo, hi', [b] + alloc)
    {
      BlockAt(free, lo, hi, alloc, i);
      PushOthers(free[i], lo, hi, b, alloc);
    }
  }

  /** In a sorted list the highest block is the last. */
  lemma HighestIsLast(free: seq<Block>, lo: int, hi: int, alloc: seq<Block>)
    requires FreeOk(free, lo, hi, alloc) && free != []
    ensures HighestIndex(free) == |free| - 1
    ensures Remove(free, |free| - 1) == free[..|free| - 1]
    ensures BlockOk(free[|free| - 1], lo, hi, alloc)
  {
    HighestIsHighest(free);
    var i := HighestIndex(free);
    assert BlockOk(free[i], lo, hi, alloc);
  }

  /** Without its last block the list ends below that block. */
  lemma WithoutLast(free: seq<Block>, lo: int, hi: int, alloc: seq<Block>)
    requires FreeOk(free, lo, hi, alloc) && free != []
    ensures FreeOk(Remove(free, |free| - 1), lo, free[|free| - 1].addr, alloc)
  {
    var last := |free| - 1;
    SpacedWithout(free, last);
    var r := Remove(free, last);
    forall j | 0 <= j < |r|
      ensures BlockOk(r[j], lo, free[last].addr, alloc)
    {
      assert BlockOk(free[j], lo, hi, alloc) && End(free[j]) <= free[last].addr;
    }
  }

  /** Everything allocated lies below a free block that reaches the top. */
  lemma AllocBelowLast(b: Block, alloc: seq<Block>, lo: int, hi: int)
    requires AllocOk(alloc, lo, hi) && BlockOk(b, lo, hi, alloc) && End(b) == hi
    ensures AllocOk(alloc, lo, b.addr)
  {
    forall i | 0 <= i < |alloc|
      ensures End(alloc[i]) <= b.addr
    {
      assert Disjoint(b, alloc[i]);
    }
  }

  lemma GrowMultiKeepsInv(h: Heap, n: int)
    requires Inv(h) && n + HEADER > PGSIZE && FitIndex(h.free, n).None?
    requires GrowMulti(h, n).0.top <= STACK_BOTTOM
    ensures Inv(GrowMulti(h, n).0)
  {
    hide AllocOk, Total, GrowOnto, HighestIndex, FreeOk;
    var reuse := h.free != [] && End(h.free[HighestIndex(h.free)]) >= h.top;
    if reuse {
      HighestIsLast(h.free, h.bottom, h.top, h.alloc);
      var last := |h.free| - 1;
      var b := h.free[last];
      FitIndexFits(h.free, n);
      assert !Fits(b, n);
      WithoutLast(h.free, h.bottom, h.top, h.alloc);
      AllocBelowLast(b, h.alloc, h.bottom, h.top);
      TotalRemove(h.free, last);
      GrowOntoKeepsInv(h.(free := Remove(h.free, last)), b.addr, n, n - b.size);
    } else {
      GrowOntoKeepsInv(h.(top := h.top + PGSIZE), h.top, n, n - (PGSIZE - HEADER));
    }
  }

  // ---------------------------------------------------------------- free

  lemma RemoveFromAlloc(alloc: seq<Block>, i: nat, lo: int, hi: int)
    requires AllocOk(alloc, lo, hi) && i < |alloc|
    ensures AllocOk(Remove(alloc, i), lo, hi) && Apart(alloc[i], Remove(alloc, i))
  {
    var r := Remove(alloc, i);
    assert forall j :: 0 <= j < |r| ==> r[j] == alloc[if j < i then j else j + 1];
  }

  lemma FewerOthers(free: seq<Block>, lo: int, hi: int, alloc: seq<Block>, i: nat)
    requires FreeOk(free, lo, hi, alloc) && i < |alloc|
    ensures FreeOk(free, lo, hi, Remove(alloc, i)) && Apart(alloc[i], free)
  {
    var r := Remove(alloc, i);
    assert forall j :: 0 <= j < |r| ==> r[j] == alloc[if j < i then j else j + 1];
    forall k | 0 <= k < |free|
      ensures BlockOk(free[k], lo, hi, r) && Disjoint(alloc[i], free[k])
    {
      assert BlockOk(free[k], lo, hi, alloc) && Disjoint(free[k], alloc[i]);
    }
  }

  /** merge_free_blocks on a sorted list keeps the bytes, up to the dropped headers; the second
      sort changes nothing, so no mergeable neighbours are left. */
  lemma MergeFreeKeeps(list: seq<Block>, lo: int, hi: int, alloc: seq<Block>)
    requires FreeOk(list, lo, hi, alloc) && forall k :: 0 <= k < |alloc| ==> alloc[k].size >= 0
    ensures FreeOk(MergeFree(list), lo, hi, alloc) && Merged(MergeFree(list))
    ensures Dropped(list) >= 0 && Total(MergeFree(list)) + HEADER * Dropped(list) == Total(list)
  {
    hide Total, MergePass, Sort;
    SortKeeps(list, lo, hi, alloc);
    var sorted := Sort(list);
    MergeKeeps(sorted, lo, hi, alloc);
    var merged := MergePass(sorted);
    SortKeepsNonEmpty(merged, lo, hi, alloc);
  }

  lemma SortKeepsNonEmpty(list: seq<Block>, lo: int, hi: int, alloc: seq<Block>)
    requires FreeOk(list, lo, hi, alloc) && forall i :: 1 <= i < |list| ==> list[i].size > 0
    ensures Sort(list) == list
  {
    hide Sort, NonEmpty;
    assert Sized(list) by {
      forall i | 0 <= i < |list| ensures list[i].size >= 0 { BlockAt(list, lo, hi, alloc, i); }
    }
    SortIsDropEmpty(list);
    if list != [] {
      assert forall i :: 0 <= i < |list| - 1 ==> list[1..][i] == list[i + 1];
      NonEmptyIsAll(list[1..]);
    }
  }

  lemma {:induction false} NonEmptyIsAll(list: seq<Block>)
    requires forall i :: 0 <= i < |list| ==> list[i].size > 0
    ensures NonEmpty(list) == list
  {
    if list != [] {
      NonEmptyIsAll(list[1..]);
    }
  }

  /** free keeps the heap well formed and leaves no mergeable neighbours on the free list. */
  lemma FreeKeepsInv(h: Heap, va: int)
    requires Inv(h) && Free(h, va).Some?
    ensures Inv(Free(h, va).value) && Merged(Free(h, va).value.free)
  {
    hide Total, MergeFree, Dropped, Insert, Spaced, BlocksOk, Remove;
    FindAddrFinds(h.alloc, va - HEADER);
    var i := FindAddr(h.alloc, va - HEADER).value;
    var b := h.alloc[i];
    var alloc := Remove(h.alloc, i);
    RemoveFromAlloc(h.alloc, i, h.bottom, h.top);
    FewerOthers(h.free, h.bottom, h.top, h.alloc, i);
    TotalRemove(h.alloc, i);
    var listed := Insert(h.free, b);
    InsertKeepsOrder(h.free, b, h.bottom, h.top, alloc);
    MergeFreeKeeps(listed, h.bottom, h.top, alloc);
  }

  /** malloc keeps the heap well formed, as long as it stays below the stack. */
  lemma MallocKeepsInv(h: Heap, request: int)
    requires Inv(h) && Malloc(h, request).0.top <= STACK_BOTTOM
    ensures Inv(Malloc(h, request).0)
  {
    if request > 0 {
      hide Inv, FirstFit, GrowPage, GrowMulti;
      var n := RoundUp8(request);
      FirstFitKeepsInv(h, n);
      FirstFitResult(h, n);
      if FirstFit(h, n).1 == 0 {
        if n + HEADER <= PGSIZE {
          GrowPageTop(h, n);
          GrowPageKeepsInv(h);
          FirstFitKeepsInv(GrowPage(h), n);
        } else {
          GrowMultiKeepsInv(h, n);
        }
      }
    }
  }

  /** first_fit_alloc fails exactly when nothing fits. */
  lemma FirstFitResult(h: Heap, n: int)
    requires Inv(h) && n > 0
    ensures FirstFit(h, n).1 == 0 <==> FitIndex(h.free, n).None?
    ensures FirstFit(h, n).1 == 0 || FirstFit(h, n).1 >= h.bottom > 0
    ensures FirstFit(h, n).1 == 0 ==> FirstFit(h, n).0 == h
    ensures FirstFit(h, n).0.top == h.top
    ensures FirstFit(h, n).1 != 0 ==> FirstFit(h, n).0.alloc == [Block(FirstFit(h, n).1, n)] + h.alloc
  {
    hide Total;
    FitIndexFits(h.free, n);
    if FitIndex(h.free, n).Some? {
      BlockAt(h.free, h.bottom, h.top, h.alloc, FitIndex(h.free, n).value);
    }
  }

  lemma GrowPageTop(h: Heap, n: int)
    ensures GrowPage(h).top == h.top + PGSIZE && FirstFit(GrowPage(h), n).0.top == h.top + PGSIZE
    ensures GrowPage(h).alloc == h.alloc
  {
  }

  // ---------------------------------------------------------------- what the caller sees

  /** The block first_fit_alloc hands out is the lowest-addressed free block that fits. */
  lemma FirstFitIsLowest(h: Heap, n: int, j: nat)
    requires Inv(h) && n > 0 && j < |h.free| && Fits(h.free[j], n)
    ensures FirstFit(h, n).1 != 0 && FirstFit(h, n).1 <= h.free[j].addr
    ensures exists i :: 0 <= i < |h.free| && h.free[i].addr == FirstFit(h, n).1 && Fits(h.free[i], n)
  {
    hide Total;
    FitIndexFits(h.free, n);
    var i := FitIndex(h.free, n).value;
    BlockAt(h.free, h.bottom, h.top, h.alloc, i);
    assert i < j ==> End(h.free[i]) <= h.free[j].addr;
  }

  /** A successful malloc adds one block of the rounded size and touches no other allocation; a
      failed one changes no allocation. */
  lemma MallocAddsOne(h: Heap, request: int)
    requires Inv(h) && Malloc(h, request).0.top <= STACK_BOTTOM
    ensures var (h', p) := Malloc(h, request);
            if p == 0 then h'.alloc == h.alloc
            else request > 0 && h'.alloc == [Block(p - HEADER, RoundUp8(request))] + h.alloc
  {
    hide Inv, FirstFit, GrowPage, GrowMulti, FitIndex, RoundUp8;
    if request > 0 {
      var n := RoundUp8(request);
      RoundUp8Bounds(request);
      FirstFitResult(h, n);
      if FirstFit(h, n).1 == 0 {
        if n + HEADER <= PGSIZE {
          GrowPageTop(h, n);
          GrowPageKeepsInv(h);
          FirstFitResult(GrowPage(h), n);
        } else {
          GrowMultiStart(h, n);
        }
      }
    }
  }

  /** With pages available malloc succeeds exactly if some free block fits or the rounded request
      is neither 4056 nor 4064 bytes: those are too large to split a fresh page and too small to
      use it up. */
  lemma MallocSucceeds(h: Heap, request: int)
    requires Inv(h) && Malloc(h, request).0.top <= STACK_BOTTOM && request > 0
    ensures var n := RoundUp8(request);
            Malloc(h, request).1 != 0 <==> FitIndex(h.free, n).Some? || (n != 4056 && n != 4064)
  {
    hide Inv, FirstFit, GrowPage, GrowMulti, FitIndex, RoundUp8;
    var n := RoundUp8(request);
    RoundUp8Bounds(request);
    FirstFitResult(h, n);
    if FirstFit(h, n).1 == 0 {
      if n + HEADER <= PGSIZE {
        GrowPageTop(h, n);
        GrowPageKeepsInv(h);
        FirstFitResult(GrowPage(h), n);
        FitInLonger(h.free, Block(h.top, PGSIZE - HEADER), n);
      } else {
        GrowMultiStart(h, n);
      }
    }
  }

  lemma RoundUp8Bounds(request: int)
    requires request > 0
    ensures request <= RoundUp8(request) < request + 8 && RoundUp8(request) % 8 == 0
  {
  }

  lemma FitInLonger(list: seq<Block>, b: Block, n: int)
    ensures FitIndex(list + [b], n).Some? <==> FitIndex(list, n).Some? || Fits(b, n)
  {
    FitIndexFits(list, n);
    FitIndexFits(list + [b], n);
    var longer := list + [b];
    assert longer[|list|] == b;
    assert forall j :: 0 <= j < |list| ==> longer[j] == list[j];
  }

  lemma GrowMultiStart(h: Heap, n: int)
    requires Inv(h)
    ensures GrowMulti(h, n).1 >= h.bottom > 0
    ensures GrowMulti(h, n).0.alloc == [Block(GrowMulti(h, n).1, n)] + h.alloc
  {
    hide Total;
    if h.free != [] {
      BlockAt(h.free, h.bottom, h.top, h.alloc, HighestIndex(h.free));
    }
  }

  /** The bytes that multi-page growth has to add for a payload of `n` bytes: those that the topmost free
      block, where it reaches the top, does not have, and a header without such a block. */
  function Missing(h: Heap, n: int): int {
    if h.free != [] && End(h.free[HighestIndex(h.free)]) >= h.top then n - h.free[HighestIndex(h.free)].size
    else n + HEADER
  }

  /** malloc maps pages only if nothing fits: one for a request that fits a page, and otherwise enough for
      the missing bytes and less than two pages more. */
  lemma MallocGrowth(h: Heap, request: int)
    requires Inv(h) && Malloc(h, request).0.top <= STACK_BOTTOM && request > 0
    ensures var n, grown := RoundUp8(request), Malloc(h, request).0.top - h.top;
            && (FitIndex(h.free, n).Some? ==> grown == 0)
            && (FitIndex(h.free, n).None? && n + HEADER <= PGSIZE ==> grown == PGSIZE)
            && (FitIndex(h.free, n).None? && n + HEADER > PGSIZE ==>
                  grown % PGSIZE == 0 && Missing(h, n) <= grown < Missing(h, n) + 2 * PGSIZE)
  {
    hide Inv, FirstFit, GrowPage, GrowMulti, FitIndex, RoundUp8, Missing;
    var n := RoundUp8(request);
    RoundUp8Bounds(request);
    FirstFitResult(h, n);
    if FirstFit(h, n).1 == 0 {
      if n + HEADER <= PGSIZE {
        GrowPageTop(h, n);
      } else {
        GrowMultiTop(h, n);
      }
    }
  }

  lemma GrowMultiTop(h: Heap, n: int)
    requires Inv(h) && FitIndex(h.free, n).None? && n + HEADER > PGSIZE
    ensures var grown := GrowMulti(h, n).0.top - h.top;
            grown % PGSIZE == 0 && Missing(h, n) <= grown < Missing(h, n) + 2 * PGSIZE
  {
    hide Inv, HighestIndex, InsertFree, FitIndex;
    var reuse := h.free != [] && End(h.free[HighestIndex(h.free)]) >= h.top;
    var rest := if reuse then Missing(h, n) else Missing(h, n) - PGSIZE;
    FitIndexFits(h.free, n);
    assert reuse ==> !Fits(h.free[HighestIndex(h.free)], n);
    assert 0 <= PagesFor(rest) * PGSIZE - rest < PGSIZE;
  }

  /** A request that fails although every page is available: 4056 bytes on an empty heap. */
  lemma MallocCanFail()
    ensures Malloc(Heap([], [], 0x40_0000, 0x40_0000, 0), 4056).1 == 0
  {
    var h := Heap([], [], 0x40_0000, 0x40_0000, 0);
    assert FitIndex(h.free, 4056) == None;
    assert GrowPage(h).free == [Block(0x40_0000, 4072)];
    assert FitIndex(GrowPage(h).free, 4056) == None;
  }

  // ---------------------------------------------------------------- runs

  datatype Op = DoMalloc(request: int) | DoFree(va: int)

  /** The heap after a run; None if a free panicked or the heap met the stack. */
  function Exec(h: Heap, ops: seq<Op>): Option<Heap>
    decreases |ops|
  {
    if ops == [] then Some(h) else
      match Exec(h, ops[..|ops| - 1])
      case None => None
      case Some(h') =>
        match ops[|ops| - 1]
        case DoMalloc(n) => if Malloc(h', n).0.top <= STACK_BOTTOM then Some(Malloc(h', n).0) else None
        case DoFree(va) => Free(h', va)
  }

  /** A new process: USER_FREE_ADDRESS_START is both ends of its heap. */
  const EMPTY: Heap := Heap([], [], 0x40_0000, 0x40_0000, 0)

  lemma {:induction false} RunsKeepInv(ops: seq<Op>)
    requires Exec(EMPTY, ops).Some?
    ensures Inv(Exec(EMPTY, ops).value)
    decreases |ops|
  {
    if ops != [] {
      hide Inv, Malloc, Free;
      RunsKeepInv(ops[..|ops| - 1]);
      var h := Exec(EMPTY, ops[..|ops| - 1]).value;
      match ops[|ops| - 1]
      case DoMalloc(n) => MallocKeepsInv(h, n);
      case DoFree(va) => FreeKeepsInv(h, va);
    }
  }

  /** Over every run of malloc and free of any sizes all blocks of both lists lie inside the heap
      and are pairwise disjoint, the free list is in address order, and the blocks and the dropped
      headers add up to the heap. After a free no two free neighbours can be merged. */
  lemma HeapTheorem(ops: seq<Op>)
    requires Exec(EMPTY, ops).Some?
    ensures var h := Exec(EMPTY, ops).value;
            var all := h.free + h.alloc;
            && (forall i :: 0 <= i < |all| ==> h.bottom <= all[i].addr && End(all[i]) <= h.top)
            && (forall i, j :: 0 <= i < j < |all| ==> Disjoint(all[i], all[j]))
            && (forall i, j :: 0 <= i < j < |h.free| ==> h.free[i].addr < h.free[j].addr)
            && Total(h.free) + Total(h.alloc) + HEADER * h.lost == h.top - h.bottom
            && (ops != [] && ops[|ops| - 1].DoFree? ==> Merged(h.free))
  {
    RunsKeepInv(ops);
    var h := Exec(EMPTY, ops).value;
    if ops != [] && ops[|ops| - 1].DoFree? {
      RunsKeepInv(ops[..|ops| - 1]);
      FreeKeepsInv(Exec(EMPTY, ops[..|ops| - 1]).value, ops[|ops| - 1].va);
    }
    hide Exec, Free, Merged;
    BlocksApart(h);
  }

  lemma BlocksApart(h: Heap)
    requires Inv(h)
    ensures var all := h.free + h.alloc;
            && (forall i :: 0 <= i < |all| ==> h.bottom <= all[i].addr && End(all[i]) <= h.top)
            && (forall i, j :: 0 <= i < j < |all| ==> Disjoint(all[i], all[j]))
    ensures forall i, j :: 0 <= i < j < |h.free| ==> h.free[i].addr < h.free[j].addr
  {
    hide Total;
    forall i | 0 <= i < |h.free|
        ensures BlockOk(h.free[i], h.bottom, h.top, h.alloc) { BlockAt(h.free, h.bottom, h.top, h.alloc, i); }
    var all := h.free + h.alloc;
    assert forall i :: 0 <= i < |all| ==> all[i] == if i < |h.free| then h.free[i] else h.alloc[i - |h.free|];
    forall i, j | 0 <= i < j < |all|
      ensures Disjoint(all[i], all[j])
    {
      if i < |h.free| <= j {
        assert Disjoint(h.free[i], h.alloc[j - |h.free|]);
      }
    }
  }
}
