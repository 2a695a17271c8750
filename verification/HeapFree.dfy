/** What a free does: it takes the block with that address off the allocated list, leaves every other one
    as it is, and makes exactly the bytes of that block free, besides those that were. */
module HeapFree {
  import opened Basics
  import opened HeapBlocks
  import opened HeapInvariant
  import opened HeapRuns

  /** Byte `a` belongs to a block of the list, header included. */
  ghost predicate Covered(list: seq<Block>, a: int) {
    exists b :: b in list && b.addr <= a < End(b)
  }

  lemma CoveredIn(list: seq<Block>, b: Block, a: int)
    requires b in list && b.addr <= a < End(b)
    ensures Covered(list, a)
  {
  }

  lemma InsertHas(list: seq<Block>, b: Block, c: Block)
    ensures c in Insert(list, b) <==> c in list || c == b
  {
    InsertSplits(list, b);
    var k := InsertAt(list, b);
    assert list == list[..k] + list[k..];
  }

  lemma {:induction false} NonEmptyHas(list: seq<Block>, c: Block)
    ensures c in NonEmpty(list) <==> c in list && c.size != 0
  {
    if list != [] {
      NonEmptyHas(list[1..], c);
      assert list == [list[0]] + list[1..];
    }
  }

  /** Sorting an ordered list drops no block with a payload and adds none. */
  lemma SortHas(list: seq<Block>, c: Block)
    requires Spaced(list) && Sized(list)
    ensures c in Sort(list) ==> c in list
    ensures c in list && c.size != 0 ==> c in Sort(list)
  {
    hide Sort;
    SortIsDropEmpty(list);
    if list != [] {
      NonEmptyHas(list[1..], c);
      assert list == [list[0]] + list[1..];
    }
  }

  lemma CoveredPair(x: Block, y: Block, rest: seq<Block>, a: int)
    requires x.size >= 0 && y.size >= 0 && End(x) == y.addr
    ensures Covered([Join(x, y)] + rest, a) <==> Covered([x, y] + rest, a)
  {
    var one, two := [Join(x, y)] + rest, [x, y] + rest;
    if b :| b in one && b.addr <= a < End(b) {
      CoveredIn(two, if b in rest then b else if a < End(x) then x else y, a);
    }
    if b :| b in two && b.addr <= a < End(b) {
      CoveredIn(one, if b in rest then b else Join(x, y), a);
    }
  }

  lemma CoveredFirst(x: Block, rest: seq<Block>, a: int)
    ensures Covered([x] + rest, a) <==> x.addr <= a < End(x) || Covered(rest, a)
  {
    if b :| b in [x] + rest && b.addr <= a < End(b) {
      assert b == x || b in rest;
    }
    if x.addr <= a < End(x) {
      CoveredIn([x] + rest, x, a);
    }
    if b :| b in rest && b.addr <= a < End(b) {
      CoveredIn([x] + rest, b, a);
    }
  }

  /** Merging changes no byte's state. */
  lemma {:induction false} MergeCovers(list: seq<Block>, a: int)
    requires Sized(list)
    ensures Covered(MergePass(list), a) <==> Covered(list, a)
    decreases |list|
  {
    hide Covered, Mergeable;
    if |list| >= 2 {
      if Mergeable(list[0], list[1]) {
        MergeableTouch(list[0], list[1]);
        CoveredPair(list[0], list[1], list[2..], a);
        assert list == [list[0], list[1]] + list[2..];
        MergeCovers([Join(list[0], list[1])] + list[2..], a);
      } else {
        CoveredFirst(list[0], list[1..], a);
        CoveredFirst(list[0], MergePass(list[1..]), a);
        assert list == [list[0]] + list[1..];
        MergeCovers(list[1..], a);
      }
    }
  }

  /** Sorting an ordered list keeps the bytes of every block with a payload, and adds none. */
  lemma SortCovers(list: seq<Block>, b: Block, a: int)
    requires Spaced(list) && Sized(list)
    ensures Covered(Sort(list), a) ==> Covered(list, a)
    ensures b in list && b.size > 0 && b.addr <= a < End(b) ==> Covered(Sort(list), a)
  {
    hide Sort, Spaced;
    if c :| c in Sort(list) && c.addr <= a < End(c) {
      SortHas(list, c);
      CoveredIn(list, c, a);
    }
    SortHas(list, b);
  }

  lemma AreSized(list: seq<Block>, lo: int, hi: int, others: seq<Block>)
    requires BlocksOk(list, lo, hi, others)
    ensures Sized(list)
  {
    forall i | 0 <= i < |list| ensures list[i].size >= 0 { assert BlockOk(list[i], lo, hi, others); }
  }

  /** merge_free_blocks frees nothing, and takes no byte from a block with a payload. */
  lemma MergeFreeCovers(list: seq<Block>, lo: int, hi: int, alloc: seq<Block>, b: Block, a: int)
    requires FreeOk(list, lo, hi, alloc) && forall k :: 0 <= k < |alloc| ==> alloc[k].size >= 0
    ensures Covered(MergeFree(list), a) ==> Covered(list, a)
    ensures b in list && b.size > 0 && b.addr <= a < End(b) ==> Covered(MergeFree(list), a)
  {
    hide Total, MergePass, Sort, Covered, Spaced, BlocksOk;
    AreSized(list, lo, hi, alloc);
    SortKeeps(list, lo, hi, alloc);
    SortCovers(list, b, a);
    var sorted := Sort(list);
    AreSized(sorted, lo, hi, alloc);
    MergeKeeps(sorted, lo, hi, alloc);
    MergeCovers(sorted, a);
    SortKeepsNonEmpty(MergePass(sorted), lo, hi, alloc);
  }

  // ---------------------------------------------------------------- the law of free

  /** `b` is free in `h'`, and was allocated in `h`; all else is as it was. */
  ghost predicate Released(h: Heap, b: Block, h': Heap) {
    && multiset(h'.alloc) == multiset(h.alloc) - multiset{b}
    && (forall c :: c in h'.alloc <==> c in h.alloc && c != b)
    && (forall a :: b.addr <= a < End(b) ==> Covered(h'.free, a))
    && (forall a :: Covered(h'.free, a) ==> Covered(h.free, a) || b.addr <= a < End(b))
    && (forall c, a :: c in h.free && c.size > 0 && c.addr <= a < End(c) ==> Covered(h'.free, a))
    && h'.bottom == h.bottom && h'.top == h.top
  }

  lemma RemoveTakesOne(list: seq<Block>, i: nat)
    requires i < |list|
    ensures multiset(Remove(list, i)) == multiset(list) - multiset{list[i]}
  {
    assert list == list[..i] + [list[i]] + list[i + 1..];
  }

  /** Allocated blocks are told apart by their addresses. */
  lemma AddressesDiffer(alloc: seq<Block>, lo: int, hi: int, i: nat, j: nat)
    requires AllocOk(alloc, lo, hi) && i < |alloc| && j < |alloc| && i != j
    ensures alloc[i].addr != alloc[j].addr
  {
    assert i < j ==> Disjoint(alloc[i], alloc[j]);
    assert j < i ==> Disjoint(alloc[j], alloc[i]);
  }

  lemma OthersStay(alloc: seq<Block>, lo: int, hi: int, i: nat, c: Block)
    requires AllocOk(alloc, lo, hi) && i < |alloc|
    ensures c in Remove(alloc, i) <==> c in alloc && c != alloc[i]
  {
    var r := Remove(alloc, i);
    assert alloc == alloc[..i] + [alloc[i]] + alloc[i + 1..];
    if c in r {
      var j :| 0 <= j < |r| && r[j] == c;
      AddressesDiffer(alloc, lo, hi, i, if j < i then j else j + 1);
    }
  }

  lemma FreedBytes(h: Heap, b: Block, alloc: seq<Block>, c: Block, a: int)
    requires FreeOk(h.free, h.bottom, h.top, alloc) && BlockOk(b, h.bottom, h.top, alloc) && Apart(b, h.free)
    requires b.size > 0 && forall k :: 0 <= k < |alloc| ==> alloc[k].size >= 0
    ensures var r := MergeFree(Insert(h.free, b));
            && (b.addr <= a < End(b) ==> Covered(r, a))
            && (Covered(r, a) ==> Covered(h.free, a) || b.addr <= a < End(b))
            && (c in h.free && c.size > 0 && c.addr <= a < End(c) ==> Covered(r, a))
  {
    hide Total, MergeFree, Insert, Spaced, BlocksOk;
    var listed := Insert(h.free, b);
    InsertKeepsOrder(h.free, b, h.bottom, h.top, alloc);
    MergeFreeCovers(listed, h.bottom, h.top, alloc, b, a);
    MergeFreeCovers(listed, h.bottom, h.top, alloc, c, a);
    InsertHas(h.free, b, b);
    InsertHas(h.free, b, c);
    if Covered(listed, a) {
      var d :| d in listed && d.addr <= a < End(d);
      InsertHas(h.free, b, d);
    }
  }

  /** free of an allocated block releases that block. */
  lemma FreeReleases(h: Heap, b: Block)
    requires Inv(h) && b in h.alloc
    ensures Free(h, b.addr + HEADER).Some? && Released(h, b, Free(h, b.addr + HEADER).value)
  {
    hide Total, MergeFree, Dropped, Insert, Spaced, BlocksOk, Remove, Covered;
    FindAddrFinds(h.alloc, b.addr);
    var k :| 0 <= k < |h.alloc| && h.alloc[k] == b;
    assert FindAddr(h.alloc, b.addr).Some?;
    var i := FindAddr(h.alloc, b.addr).value;
    if i != k {
      AddressesDiffer(h.alloc, h.bottom, h.top, i, k);
    }
    var h', alloc := Free(h, b.addr + HEADER).value, Remove(h.alloc, k);
    RemoveTakesOne(h.alloc, k);
    RemoveFromAlloc(h.alloc, k, h.bottom, h.top);
    FewerOthers(h.free, h.bottom, h.top, h.alloc, k);
    forall c ensures c in h'.alloc <==> c in h.alloc && c != b { OthersStay(h.alloc, h.bottom, h.top, k, c); }
    hide AllocOk, FreeOk;
    forall a, c
      ensures b.addr <= a < End(b) ==> Covered(h'.free, a)
      ensures Covered(h'.free, a) ==> Covered(h.free, a) || b.addr <= a < End(b)
      ensures c in h.free && c.size > 0 && c.addr <= a < End(c) ==> Covered(h'.free, a)
    {
      FreedBytes(h, b, alloc, c, a);
    }
  }

  /** free panics exactly for an address at which no block was handed out. */
  lemma FreeIsExact(h: Heap, va: int)
    requires Inv(h)
    ensures Free(h, va).Some? <==> exists b :: b in h.alloc && b.addr == va - HEADER
  {
    FindAddrFinds(h.alloc, va - HEADER);
    if b :| b in h.alloc && b.addr == va - HEADER {
      FreeReleases(h, b);
    }
  }

  // ---------------------------------------------------------------- runs

  /** What the process owns after a run, from the calls and the addresses they returned: each address
      that malloc returned and that was not freed since, with the rounded size asked for. */
  ghost function Live(ops: seq<Op>): map<int, int>
    requires Exec(EMPTY, ops).Some?
    decreases |ops|
  {
    if ops == [] then map[] else
      var before, h := Live(ops[..|ops| - 1]), Exec(EMPTY, ops[..|ops| - 1]).value;
      match ops[|ops| - 1]
      case DoMalloc(n) => if Malloc(h, n).1 == 0 || n <= 0 then before else before[Malloc(h, n).1 := RoundUp8(n)]
      case DoFree(va) => before - {va}
  }

  ghost predicate Owns(live: map<int, int>, h: Heap) {
    forall b :: b in h.alloc <==> b.addr + HEADER in live && live[b.addr + HEADER] == b.size
  }

  lemma MallocOwns(live: map<int, int>, h: Heap, n: int)
    requires Inv(h) && Owns(live, h) && Malloc(h, n).0.top <= STACK_BOTTOM
    ensures var (h', va) := Malloc(h, n);
            Owns(if va == 0 || n <= 0 then live else live[va := RoundUp8(n)], h')
  {
    MallocAddsOne(h, n);
    MallocKeepsInv(h, n);
    hide Malloc, RoundUp8, Total, FreeOk;
    var (h', va) := Malloc(h, n);
    if va != 0 {
      var b := Block(va - HEADER, RoundUp8(n));
      assert h'.alloc[0] == b;
      forall c | c in h.alloc
        ensures c.addr != b.addr
      {
        var k :| 0 <= k < |h.alloc| && h.alloc[k] == c;
        assert h'.alloc[k + 1] == c;
        AddressesDiffer(h'.alloc, h'.bottom, h'.top, 0, k + 1);
      }
    }
  }

  lemma FreeOwns(live: map<int, int>, h: Heap, va: int)
    requires Inv(h) && Owns(live, h) && Free(h, va).Some?
    ensures va in live && Owns(live - {va}, Free(h, va).value)
  {
    hide Inv, Free, Covered;
    FreeIsExact(h, va);
    var b :| b in h.alloc && b.addr == va - HEADER;
    FreeReleases(h, b);
  }

  /** Over every run the allocated blocks are what the process owns. */
  lemma {:induction false} OwnedOverRun(ops: seq<Op>)
    requires Exec(EMPTY, ops).Some?
    ensures Owns(Live(ops), Exec(EMPTY, ops).value)
    decreases |ops|
  {
    hide Inv, Malloc, Free, Owns, RoundUp8;
    if ops == [] {
      assert Owns(map[], EMPTY) by { NothingOwned(); }
    } else {
      OwnedOverRun(ops[..|ops| - 1]);
      RunsKeepInv(ops[..|ops| - 1]);
      var h := Exec(EMPTY, ops[..|ops| - 1]).value;
      match ops[|ops| - 1]
      case DoMalloc(n) => MallocOwns(Live(ops[..|ops| - 1]), h, n);
      case DoFree(va) => FreeOwns(Live(ops[..|ops| - 1]), h, va);
    }
  }

  lemma NothingOwned()
    ensures Owns(map[], EMPTY)
  {
  }

  lemma OwnedIsBlock(live: map<int, int>, h: Heap, va: int)
    requires Inv(h) && Owns(live, h) && va in live
    ensures Block(va - HEADER, live[va]) in h.alloc
    ensures h.bottom + HEADER <= va && live[va] > 0 && va + live[va] <= h.top
  {
    hide Total, FreeOk;
    var b := Block(va - HEADER, live[va]);
    assert b in h.alloc;
  }

  lemma OwnedIsFreed(live: map<int, int>, h: Heap, va: int)
    requires Inv(h) && Owns(live, h)
    ensures Free(h, va).Some? <==> va in live
  {
    FreeIsExact(h, va);
    hide Inv, Free;
    if va in live {
      OwnedIsBlock(live, h, va);
    }
  }

  lemma OwnedApart(h: Heap, b: Block, c: Block)
    requires Inv(h) && b in h.alloc && c in h.alloc && b != c
    ensures Disjoint(b, c)
  {
    var i :| 0 <= i < |h.alloc| && h.alloc[i] == b;
    var j :| 0 <= j < |h.alloc| && h.alloc[j] == c;
    assert i < j ==> Disjoint(h.alloc[i], h.alloc[j]);
    assert j < i ==> Disjoint(h.alloc[j], h.alloc[i]);
  }

  /** After every run, the ranges of bytes that the process owns lie inside the heap and are pairwise
      disjoint, and a free succeeds exactly for the addresses it owns. */
  lemma OwnershipTheorem(ops: seq<Op>)
    requires Exec(EMPTY, ops).Some?
    ensures var live, h := Live(ops), Exec(EMPTY, ops).value;
            && (forall va :: va in live ==> h.bottom + HEADER <= va && live[va] > 0 && va + live[va] <= h.top)
            && (forall u, va :: u in live && va in live && u != va ==>
                  u + live[u] <= va - HEADER || va + live[va] <= u - HEADER)
            && (forall va :: Free(h, va).Some? <==> va in live)
  {
    OwnedOverRun(ops);
    RunsKeepInv(ops);
    var live, h := Live(ops), Exec(EMPTY, ops).value;
    hide Exec, Live, Free, Inv, Owns;
    forall va | va in live
      ensures h.bottom + HEADER <= va && live[va] > 0 && va + live[va] <= h.top
    {
      OwnedIsBlock(live, h, va);
    }
    forall u, va | u in live && va in live && u != va
      ensures u + live[u] <= va - HEADER || va + live[va] <= u - HEADER
    {
      OwnedIsBlock(live, h, u);
      OwnedIsBlock(live, h, va);
      OwnedApart(h, Block(u - HEADER, live[u]), Block(va - HEADER, live[va]));
    }
    forall va ensures Free(h, va).Some? <==> va in live { OwnedIsFreed(live, h, va); }
  }
}
