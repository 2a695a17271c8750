/** What every malloc and free keeps: the blocks of the heap tile it without overlap, nothing is
    lost but the headers of dropped empty blocks, and the free list stays in address order. */
module HeapInvariant {
  import opened Basics
  import opened HeapBlocks

  /** In address order, and no block reaches into the next. */
  ghost predicate Spaced(list: seq<Block>) {
    forall i, j :: 0 <= i < j < |list| ==> End(list[i]) <= list[j].addr
  }

  ghost predicate Apart(b: Block, others: seq<Block>) {
    forall k :: 0 <= k < |others| ==> Disjoint(b, others[k])
  }

  ghost predicate BlockOk(b: Block, lo: int, hi: int, others: seq<Block>) {
    b.size >= 0 && lo <= b.addr && End(b) <= hi && Apart(b, others)
  }

  ghost predicate BlocksOk(list: seq<Block>, lo: int, hi: int, others: seq<Block>) {
    forall i :: 0 <= i < |list| ==> BlockOk(list[i], lo, hi, others)
  }

  /** The bytes a list of blocks occupies. */
  function Total(list: seq<Block>): int {
    if list == [] then 0 else HEADER + list[0].size + Total(list[1..])
  }

  lemma {:induction false} TotalConcat(a: seq<Block>, b: seq<Block>)
    ensures Total(a + b) == Total(a) + Total(b)
  {
    if a == [] {
      assert a + b == b;
    } else {
      TotalConcat(a[1..], b);
      assert (a + b)[1..] == a[1..] + b;
    }
  }

  lemma {:induction false} TotalRemove(list: seq<Block>, i: nat)
    requires i < |list|
    ensures Total(Remove(list, i)) == Total(list) - HEADER - list[i].size
  {
    if i == 0 {
      assert Remove(list, 0) == list[1..];
    } else {
      TotalRemove(list[1..], i - 1);
      assert Remove(list, i)[1..] == Remove(list[1..], i - 1);
    }
  }

  lemma TotalReplace(list: seq<Block>, i: nat, b: Block)
    requires i < |list|
    ensures Total(list[i := b]) == Total(list) - list[i].size + b.size
  {
    TotalRemove(list, i);
    TotalRemove(list[i := b], i);
    assert Remove(list[i := b], i) == Remove(list, i);
  }

  // ---------------------------------------------------------------- insertion

  /** Where Insert puts the block. */
  function InsertAt(list: seq<Block>, b: Block): (k: nat)
    ensures k <= |list|
  {
    if list == [] || b.addr <= list[0].addr then 0 else 1 + InsertAt(list[1..], b)
  }

  lemma {:induction false} InsertSplits(list: seq<Block>, b: Block)
    ensures var k := InsertAt(list, b);
            && Insert(list, b) == list[..k] + [b] + list[k..]
            && (forall j :: 0 <= j < k ==> list[j].addr < b.addr)
            && (k < |list| ==> b.addr <= list[k].addr)
  {
    if list != [] && b.addr > list[0].addr {
      InsertSplits(list[1..], b);
      var k := InsertAt(list[1..], b);
      assert list[..k + 1] == [list[0]] + list[1..][..k];
      assert list[k + 1..] == list[1..][k..];
      forall j | 0 <= j < k + 1
        ensures list[j].addr < b.addr
      {
        if j > 0 {
          assert list[j] == list[1..][j - 1];
        }
      }
    }
  }

  lemma InsertKeepsOrder(list: seq<Block>, b: Block, lo: int, hi: int, others: seq<Block>)
    requires Spaced(list) && BlocksOk(list, lo, hi, others) && BlockOk(b, lo, hi, others) && Apart(b, list)
    ensures Spaced(Insert(list, b)) && BlocksOk(Insert(list, b), lo, hi, others)
    ensures Total(Insert(list, b)) == Total(list) + HEADER + b.size
    ensures |Insert(list, b)| == |list| + 1
  {
    InsertSplits(list, b);
    var k, r := InsertAt(list, b), Insert(list, b);
    hide Insert, InsertAt, Total;
    forall j | 0 <= j < |r|
      ensures r[j] == if j < k then list[j] else if j == k then b else list[j - 1]
    {
    }
    forall i, j | 0 <= i < j < |r|
      ensures End(r[i]) <= r[j].addr
    {
      if i == k {
        assert Disjoint(b, list[j - 1]) && list[k].addr <= list[j - 1].addr;
      } else if j == k {
        assert Disjoint(b, list[i]);
      }
    }
    InsertTotal(list, b, k);
  }

  lemma InsertTotal(list: seq<Block>, b: Block, k: nat)
    requires k <= |list|
    ensures Total(list[..k] + [b] + list[k..]) == Total(list) + HEADER + b.size
  {
    TotalConcat(list[..k], list[k..]);
    assert list[..k] + list[k..] == list;
    assert list[..k] + [b] + list[k..] == list[..k] + ([b] + list[k..]);
    TotalConcat(list[..k], [b] + list[k..]);
    assert ([b] + list[k..])[1..] == list[k..];
  }

  // ---------------------------------------------------------------- sorting a sorted list

  /** A list without its empty blocks. */
  function NonEmpty(list: seq<Block>): seq<Block> {
    if list == [] then []
    else if list[0].size == 0 then NonEmpty(list[1..])
    else [list[0]] + NonEmpty(list[1..])
  }

  ghost predicate Sized(list: seq<Block>) {
    forall i :: 0 <= i < |list| ==> list[i].size >= 0
  }

  /** Above everything, Insert appends. */
  lemma {:induction false} InsertAtEnd(list: seq<Block>, b: Block)
    requires forall j :: 0 <= j < |list| ==> list[j].addr < b.addr
    ensures Insert(list, b) == list + [b]
  {
    if list != [] {
      InsertAtEnd(list[1..], b);
      assert list == [list[0]] + list[1..];
    }
  }

  lemma {:induction false} SortOntoAppends(done: seq<Block>, list: seq<Block>)
    requires done != [] && Spaced(done + list)
    requires Sized(done + list)
    ensures SortOnto(done, list) == done + NonEmpty(list)
    decreases |list|
  {
    hide InsertFree, Spaced, Sized, Insert;
    if list == [] {
      assert done + [] == done;
    } else {
      var next := InsertFree(done, list[0]);
      SortOntoStep(done, list);
      SortOntoAppends(next, list[1..]);
      assert next + NonEmpty(list[1..]) == done + NonEmpty(list);
    }
  }

  lemma SortOntoStep(done: seq<Block>, list: seq<Block>)
    requires done != [] && list != [] && Spaced(done + list)
    requires Sized(done + list)
    ensures InsertFree(done, list[0]) == if list[0].size == 0 then done else done + [list[0]]
    ensures Spaced(InsertFree(done, list[0]) + list[1..]) && Sized(InsertFree(done, list[0]) + list[1..])
  {
    var all := done + list;
    forall j | 0 <= j < |done|
      ensures done[j].addr < list[0].addr
    {
      assert all[j] == done[j] && all[|done|] == list[0];
    }
    InsertAtEnd(done, list[0]);
    hide Insert;
    if list[0].size == 0 {
      SpacedWithout(all, |done|);
      assert Remove(all, |done|) == done + list[1..];
    } else {
      assert done + [list[0]] + list[1..] == all;
    }
  }

  lemma SpacedWithout(list: seq<Block>, i: nat)
    requires Spaced(list) && i < |list|
    ensures Spaced(Remove(list, i))
    ensures forall j :: 0 <= j < |list| - 1 ==> Remove(list, i)[j] == list[if j < i then j else j + 1]
  {
  }

  /** Sorting the free list keeps its first block and the non-empty ones. */
  lemma SortIsDropEmpty(list: seq<Block>)
    requires Spaced(list) && Sized(list)
    ensures Sort(list) == if list == [] then [] else [list[0]] + NonEmpty(list[1..])
  {
    if list != [] {
      assert [list[0]] + list[1..] == list;
      SortOntoAppends([list[0]], list[1..]);
    }
  }

  /** The blocks that are left lie where they lay. */
  lemma {:induction false} NonEmptySpaced(list: seq<Block>)
    requires Spaced(list) && Sized(list)
    ensures Spaced(NonEmpty(list))
    ensures list != [] ==> forall i :: 0 <= i < |NonEmpty(list)| ==> list[0].addr <= NonEmpty(list)[i].addr
  {
    if list != [] {
      assert forall i :: 0 <= i < |list| - 1 ==> list[1..][i] == list[i + 1];
      NonEmptySpaced(list[1..]);
      assert |list| > 1 ==> End(list[0]) <= list[1].addr;
    }
  }

  /** The empty blocks account for all that dropping them loses. */
  lemma {:induction false} NonEmptyKeeps(list: seq<Block>, lo: int, hi: int, others: seq<Block>)
    requires BlocksOk(list, lo, hi, others)
    ensures BlocksOk(NonEmpty(list), lo, hi, others)
    ensures |NonEmpty(list)| <= |list|
    ensures Total(NonEmpty(list)) + HEADER * (|list| - |NonEmpty(list)|) == Total(list)
    ensures forall i :: 0 <= i < |NonEmpty(list)| ==> NonEmpty(list)[i].size > 0
  {
    if list != [] {
      assert forall i :: 0 <= i < |list| - 1 ==> list[1..][i] == list[i + 1];
      NonEmptyKeeps(list[1..], lo, hi, others);
      assert BlockOk(list[0], lo, hi, others);
    }
  }

  /** A block in front of the blocks behind it. */
  lemma InFront(b: Block, rest: seq<Block>, lo: int, hi: int, others: seq<Block>)
    requires Spaced(rest) && BlocksOk(rest, lo, hi, others) && BlockOk(b, lo, hi, others)
    requires forall i :: 0 <= i < |rest| ==> End(b) <= rest[i].addr
    ensures var all := [b] + rest;
            Spaced(all) && BlocksOk(all, lo, hi, others) && Total(all) == HEADER + b.size + Total(rest)
  {
    hide BlockOk;
    var all := [b] + rest;
    assert all[1..] == rest;
    assert forall i :: 1 <= i < |all| ==> all[i] == rest[i - 1];
  }

  lemma SortKeeps(list: seq<Block>, lo: int, hi: int, others: seq<Block>)
    requires Spaced(list) && BlocksOk(list, lo, hi, others)
    ensures Spaced(Sort(list)) && BlocksOk(Sort(list), lo, hi, others)
    ensures |Sort(list)| <= |list|
    ensures Total(Sort(list)) + HEADER * (|list| - |Sort(list)|) == Total(list)
    ensures forall i :: 1 <= i < |Sort(list)| ==> Sort(list)[i].size > 0
  {
    hide Sort, SortOnto, NonEmpty;
    assert Sized(list) by {
      assert forall i :: 0 <= i < |list| ==> BlockOk(list[i], lo, hi, others);
    }
    SortIsDropEmpty(list);
    if list != [] {
      var tail := list[1..];
      assert forall i :: 0 <= i < |tail| ==> tail[i] == list[i + 1];
      assert BlocksOk(tail, lo, hi, others);
      NonEmptySpaced(tail);
      NonEmptyKeeps(tail, lo, hi, others);
      assert BlockOk(list[0], lo, hi, others);
      assert tail != [] ==> End(list[0]) <= tail[0].addr;
      hide Spaced, BlocksOk, BlockOk;
      InFront(list[0], NonEmpty(tail), lo, hi, others);
    }
  }

  // ---------------------------------------------------------------- merging

  /** No two neighbours touch and start in the same page. */
  ghost predicate Merged(list: seq<Block>) {
    forall i :: 0 <= i < |list| - 1 ==> !Neighbours(list[i], list[i + 1])
  }

  predicate Neighbours(a: Block, b: Block) {
    End(a) == b.addr && a.addr / PGSIZE == b.addr / PGSIZE
  }

  /** The test by page hashes is the test for the same page. */
  lemma MergeableIs(a: Block, b: Block)
    ensures Mergeable(a, b) <==> Neighbours(a, b)
  {
    assert PageHash(a.addr) == a.addr / PGSIZE + 1024 && PageHash(b.addr) == b.addr / PGSIZE + 1024;
  }

  function Join(a: Block, b: Block): Block {
    Block(a.addr, a.size + HEADER + b.size)
  }

  lemma JoinOk(a: Block, b: Block, lo: int, hi: int, others: seq<Block>)
    requires BlockOk(a, lo, hi, others) && BlockOk(b, lo, hi, others) && End(a) == b.addr
    requires forall k :: 0 <= k < |others| ==> others[k].size >= 0
    ensures BlockOk(Join(a, b), lo, hi, others) && End(Join(a, b)) == End(b)
  {
    forall k | 0 <= k < |others|
      ensures Disjoint(Join(a, b), others[k])
    {
      assert Disjoint(a, others[k]) && Disjoint(b, others[k]);
    }
  }

  lemma JoinFirstTwo(list: seq<Block>, lo: int, hi: int, others: seq<Block>)
    requires |list| >= 2 && Spaced(list) && BlocksOk(list, lo, hi, others) && Mergeable(list[0], list[1])
    requires forall k :: 0 <= k < |others| ==> others[k].size >= 0
    ensures var joined := [Join(list[0], list[1])] + list[2..];
            && Spaced(joined) && BlocksOk(joined, lo, hi, others)
            && Total(joined) == Total(list)
            && |joined| == |list| - 1
            && (forall i :: 1 <= i < |joined| ==> joined[i] == list[i + 1])
  {
    hide Mergeable;
    var joined := [Join(list[0], list[1])] + list[2..];
    assert BlockOk(list[0], lo, hi, others) && BlockOk(list[1], lo, hi, others);
    assert End(list[0]) == list[1].addr by { MergeableTouch(list[0], list[1]); }
    JoinOk(list[0], list[1], lo, hi, others);
    assert forall i :: 1 <= i < |joined| ==> joined[i] == list[i + 1];
    assert joined[1..] == list[2..] && list[1..][1..] == list[2..];
  }

  lemma MergeableTouch(a: Block, b: Block)
    requires Mergeable(a, b)
    ensures End(a) == b.addr
  {
  }

  /** Merging keeps the bytes covered, and leaves no mergeable neighbours. */
  lemma {:induction false} MergeKeeps(list: seq<Block>, lo: int, hi: int, others: seq<Block>)
    requires Spaced(list) && BlocksOk(list, lo, hi, others)
    requires forall k :: 0 <= k < |others| ==> others[k].size >= 0
    requires forall i :: 1 <= i < |list| ==> list[i].size > 0
    ensures Spaced(MergePass(list)) && BlocksOk(MergePass(list), lo, hi, others)
    ensures Total(MergePass(list)) == Total(list)
    ensures Merged(MergePass(list))
    ensures list != [] ==>
        MergePass(list) != [] && MergePass(list)[0].addr == list[0].addr && MergePass(list)[0].size >= list[0].size
    ensures forall i :: 1 <= i < |MergePass(list)| ==> MergePass(list)[i].size > 0
    decreases |list|
  {
    hide Mergeable, Neighbours;
    if |list| >= 2 {
      if Mergeable(list[0], list[1]) {
        JoinFirstTwo(list, lo, hi, others);
        assert BlockOk(list[0], lo, hi, others) && BlockOk(list[1], lo, hi, others);
        MergeKeeps([Join(list[0], list[1])] + list[2..], lo, hi, others);
      } else {
        MergeTail(list, lo, hi, others);
      }
    }
  }

  lemma {:induction false} MergeTail(list: seq<Block>, lo: int, hi: int, others: seq<Block>)
    requires |list| >= 2 && !Mergeable(list[0], list[1])
    requires Spaced(list) && BlocksOk(list, lo, hi, others)
    requires forall k :: 0 <= k < |others| ==> others[k].size >= 0
    requires forall i :: 1 <= i < |list| ==> list[i].size > 0
    ensures var r := [list[0]] + MergePass(list[1..]);
            && Spaced(r) && BlocksOk(r, lo, hi, others) && Total(r) == Total(list) && Merged(r)
            && (forall i :: 1 <= i < |r| ==> r[i].size > 0)
    decreases |list|, 0
  {
    hide MergePass, Mergeable, Neighbours;
    var tail := list[1..];
    assert forall i :: 0 <= i < |tail| ==> tail[i] == list[i + 1];
    MergeKeeps(tail, lo, hi, others);
    var rest := MergePass(tail);
    assert BlockOk(list[0], lo, hi, others) && End(list[0]) <= tail[0].addr;
    assert !Neighbours(list[0], rest[0]) by {
      MergeableByAddr(list[0], tail[0], rest[0]);
      MergeableIs(list[0], rest[0]);
    }
    AllBehind(rest, lo, hi, others);
    hide Spaced, BlocksOk, BlockOk, Merged, Total;
    assert Total(list) == HEADER + list[0].size + Total(tail) by { TotalFront(list); }
    InFront(list[0], rest, lo, hi, others);
    MergedFront(list[0], rest);
  }

  lemma TotalFront(list: seq<Block>)
    requires list != []
    ensures Total(list) == HEADER + list[0].size + Total(list[1..])
  {
  }

  lemma AllBehind(list: seq<Block>, lo: int, hi: int, others: seq<Block>)
    requires Spaced(list) && BlocksOk(list, lo, hi, others) && list != []
    ensures forall i :: 0 <= i < |list| ==> list[0].addr <= list[i].addr
  {
    assert BlockOk(list[0], lo, hi, others);
  }

  lemma MergedFront(b: Block, rest: seq<Block>)
    requires Merged(rest) && rest != [] && !Neighbours(b, rest[0])
    ensures Merged([b] + rest)
  {
    var r := [b] + rest;
    assert forall i :: 1 <= i < |r| ==> r[i] == rest[i - 1];
  }

  lemma MergeableByAddr(a: Block, b: Block, c: Block)
    requires b.addr == c.addr
    ensures Mergeable(a, b) == Mergeable(a, c)
  {
  }
}
