/** The heap allocator as the kernel runs it: block headers in user memory, linked into an
    allocated and a free list that are spliced in place (kernel/process.c, kernel/syscall.c).
    Every routine is proved to compute the corresponding function on block lists. */
module UserHeap {
  import opened Basics
  import opened Chains
  import opened HeapBlocks
  import opened HeapFrames
  import opened HeapFree
  import opened HeapInvariant
  import opened HeapRuns

  const NULL: int := 0

  type Sizes = map<int, int>

  function SizeAt(size: Sizes, x: int): int {
    if x in size then size[x] else 0
  }

  /** The blocks at the given addresses. */
  ghost function Blocks(list: seq<int>, size: Sizes): (r: seq<Block>)
    ensures |r| == |list| && forall i :: 0 <= i < |list| ==> r[i] == Block(list[i], SizeAt(size, list[i]))
  {
    seq(|list|, i requires 0 <= i < |list| => Block(list[i], SizeAt(size, list[i])))
  }

  /** Header addresses of live blocks: positive and comparable. */
  ghost predicate Addresses(list: seq<int>) {
    NoDuplicates(list) && forall x :: x in list ==> 0 < x <= STACK_BOTTOM
  }

  /** Where an address goes in an ascending list. */
  function Position(list: seq<int>, x: int): (k: nat)
    ensures k <= |list|
  {
    if list == [] || x <= list[0] then 0 else 1 + Position(list[1..], x)
  }

  lemma {:induction false} PositionIs(list: seq<int>, x: int, k: nat)
    requires k <= |list|
    requires forall j :: 0 <= j < k ==> list[j] < x
    requires k < |list| ==> x <= list[k]
    ensures Position(list, x) == k
  {
    if k > 0 {
      assert list[0] < x;
      PositionIs(list[1..], x, k - 1);
    }
  }

  /** Insertion on addresses is insertion on blocks. */
  lemma InsertBlocks(list: seq<int>, size: Sizes, x: int)
    ensures Blocks(Inserted(list, Position(list, x), x), size) == Insert(Blocks(list, size), Block(x, SizeAt(size, x)))
  {
    hide Insert, InsertAt, Position, Blocks;
    var blocks, b := Blocks(list, size), Block(x, SizeAt(size, x));
    InsertSplits(blocks, b);
    var k := InsertAt(blocks, b);
    PositionIs(list, x, k);
    var r := Blocks(Inserted(list, k, x), size);
    assert forall i :: 0 <= i < |r| ==> r[i] == (blocks[..k] + [b] + blocks[k..])[i];
  }

  lemma RemoveBlocks(list: seq<int>, size: Sizes, i: nat)
    requires i < |list|
    ensures Blocks(Without(list, i), size) == Remove(Blocks(list, size), i)
  {
  }

  /** Blocks depend only on the sizes of their own headers. */
  lemma SameSizesSameBlocks(list: seq<int>, size: Sizes, size': Sizes)
    requires forall x :: x in list ==> SizeAt(size, x) == SizeAt(size', x)
    ensures Blocks(list, size) == Blocks(list, size')
  {
    forall i | 0 <= i < |list| ensures Blocks(list, size)[i] == Blocks(list, size')[i] { assert list[i] in list; }
  }

  class HeapManager {
    var next: Links
    var size: Sizes
    var flag: map<int, int>
    var freeList: int
    var allocList: int
    var heapTop: int
    const heapBottom: int
    ghost var free: seq<int>
    ghost var alloc: seq<int>
    ghost var lost: int

    /** `head` starts a list of headers with known sizes. */
    ghost predicate IsList(head: int, list: seq<int>)
      reads this
    {
      Linked(next, NULL, head, list) && Addresses(list)
    }

    /** alloc_process: an empty heap at USER_FREE_ADDRESS_START. */
    constructor ()
      ensures Valid() && View() == EMPTY
    {
      next, size, flag := map[], map[], map[];
      freeList, allocList := NULL, NULL;
      heapTop, heapBottom := 0x40_0000, 0x40_0000;
      free, alloc, lost := [], [], 0;
    }

    ghost predicate Flagged(list: seq<int>, value: int)
      reads this
    {
      forall x :: x in list ==> x in size && x in flag && flag[x] == value
    }

    /** Two lists of headers without common nodes; every header knows its size and its state. */
    ghost predicate Valid()
      reads this
    {
      && IsList(freeList, free) && IsList(allocList, alloc)
      && (forall x :: x in free ==> x !in alloc)
      && Flagged(free, 0) && Flagged(alloc, 1)
    }

    ghost function View(): Heap
      reads this
    {
      Heap(Blocks(free, size), Blocks(alloc, size), heapBottom, heapTop, lost)
    }

    ghost function Mem(): Memory
      reads this
    {
      Memory(next, size, flag)
    }

    /** remove_from_pd_list, and the first half of sort_pd_list_ascend. */
    method Unlink(head: int, item: int, ghost list: seq<int>) returns (found: bool, head': int, ghost k: nat)
      requires IsList(head, list) && head != NULL && item != NULL
      modifies this`next
      ensures found <==> item in list
      ensures next.Keys == old(next.Keys)
      ensures found ==> k < |list| && list[k] == item && Linked(next, NULL, head', Without(list, k))
      ensures found ==> forall x :: x in old(next) && (x !in list || x == item) ==> next[x] == old(next)[x]
      ensures !found ==> head' == head && next == old(next)
    {
      hide Linked, NoDuplicates;
      LinkedHead(next, NULL, head, list);
      if head == item {
        LinkedTail(next, NULL, head, list);
        assert Without(list, 0) == list[1..];
        return true, next[item], 0;
      }
      var prev := head;
      k := 0;
      LinkedAt(next, NULL, head, list, 0);
      while prev != NULL && next[prev] != item
        invariant next == old(next)
        invariant 0 <= k <= |list| && prev == At(list, k, NULL)
        invariant forall j :: 0 <= j <= k && j < |list| ==> list[j] != item
        invariant k < |list| ==> list[k] != NULL && list[k] in next && next[list[k]] == At(list, k + 1, NULL)
        decreases |list| - k
      {
        prev := next[prev];
        k := k + 1;
        if k < |list| {
          LinkedAt(next, NULL, head, list, k);
        }
      }
      head' := head;
      found := prev != NULL;
      if found {
        k := k + 1;
        LinkedRemove(next, NULL, head, list, k - 1);
        assert prev in list && prev in next;
        next := next[prev := next[item]];
        assert next.Keys == old(next.Keys);
        OthersDiffer(list, k - 1, k);
      }
    }

    /** The scan of sort_pd_list_ascend over a list whose head lies below `item`: the first block
        that does not, or the last block, and its predecessor. */
    method FindSpot(head: int, item: int, ghost list: seq<int>) returns (prev: int, cur: int, ghost k: nat)
      requires IsList(head, list) && list != [] && list[0] < item <= STACK_BOTTOM
      ensures k < |list| && cur == list[k] && (k > 0 ==> prev == list[k - 1])
      ensures forall j :: 0 <= j < k ==> list[j] < item
      ensures k + 1 == |list| || item <= list[k]
      ensures cur in next && next[cur] == At(list, k + 1, NULL)
    {
      hide Compare, Linked, NoDuplicates;
      LinkedHead(next, NULL, head, list);
      assert list[0] in list;
      cur, prev := head, head;
      k := 0;
      LinkedAt(next, NULL, head, list, 0);
      while next[cur] != NULL && Compare(cur, item) < 0
        invariant 0 <= k < |list| && cur == list[k] && prev == list[if k == 0 then 0 else k - 1]
        invariant cur in next && next[cur] == At(list, k + 1, NULL)
        invariant forall j :: 0 <= j < k ==> list[j] < item
        decreases |list| - k
      {
        assert cur in list;
        CompareIsOrder(cur, item);
        prev, cur := cur, next[cur];
        k := k + 1;
        LinkedAt(next, NULL, head, list, k);
      }
      assert cur in list;
      CompareIsOrder(cur, item);
      if k + 1 < |list| {
        LinkedAt(next, NULL, head, list, k + 1);
      }
    }

    /** The second half of sort_pd_list_ascend: link `item` in before the first block that does not
        lie below it. */
    method Splice(head: int, item: int, ghost list: seq<int>) returns (head': int)
      requires IsList(head, list) && item !in list && 0 < item <= STACK_BOTTOM && item in next
      modifies this`next
      ensures Linked(next, NULL, head', Inserted(list, Position(list, item), item))
      ensures next.Keys == old(next.Keys)
      ensures forall x :: x in old(next) && x !in list && x != item ==> next[x] == old(next)[x]
    {
      hide Position, Compare, Linked, NoDuplicates;
      LinkedHead(next, NULL, head, list);
      if head != NULL {
        assert head in list;
        CompareIsOrder(item, head);
      }
      if head == NULL || Compare(item, head) <= 0 {
        PositionIs(list, item, 0);
        assert Inserted(list, 0, item) == [item] + list;
        LinkedPush(next, NULL, head, list, item);
        next := next[item := head];
        assert next.Keys == old(next.Keys);
        return item;
      }
      head' := head;
      var prev, cur, k := FindSpot(head, item, list);
      assert cur in list;
      CompareIsOrder(cur, item);
      if next[cur] == NULL && Compare(cur, item) < 0 {
        PositionIs(list, item, |list|);
        LinkedInsert(next, NULL, head, list, k, item);
        next := next[cur := item];
        next := next[item := NULL];
      } else {
        PositionIs(list, item, k);
        LinkedInsert(next, NULL, head, list, k - 1, item);
        assert list[k - 1] in list;
        next := next[prev := item];
        next := next[item := cur];
      }
      assert next.Keys == old(next.Keys);
    }

    /** sort_pd_list_ascend for the block at the head of the list, the only way it is called. */
    method SortPdListAscend(head: int, ghost list: seq<int>) returns (head': int, ghost list': seq<int>)
      requires IsList(head, list) && list != []
      modifies this`next
      ensures next.Keys == old(next.Keys)
      ensures list' == if SizeAt(size, head) == 0 then list[1..]
                       else Inserted(list[1..], Position(list[1..], head), head)
      ensures Linked(next, NULL, head', list') && Addresses(list') && forall x :: x in list' ==> x in list
      ensures forall x :: x in old(next) && x !in list ==> next[x] == old(next)[x]
    {
      hide Linked, Position;
      LinkedHead(next, NULL, head, list);
      assert list[0] in list;
      NoDuplicatesWithout(list, 0);
      assert Without(list, 0) == list[1..];
      var found, rest, k := Unlink(head, head, list);
      assert forall j :: 0 < j < |list| ==> list[j] != list[0];
      list' := list[1..];
      head' := rest;
      if head in size && size[head] != 0 {
        NoDuplicatesInserted(list[1..], Position(list[1..], head), head);
        list' := Inserted(list[1..], Position(list[1..], head), head);
        head' := Splice(rest, head, list[1..]);
      }
    }

    /** insert_free_block */
    method InsertFreeBlock(head: int, item: int, ghost list: seq<int>) returns (head': int, ghost list': seq<int>)
      requires IsList(head, list) && item !in list && 0 < item <= STACK_BOTTOM
      modifies this`next
      ensures next.Keys == old(next.Keys) + {item}
      ensures Linked(next, NULL, head', list') && Addresses(list') && forall x :: x in list' ==> x in list || x == item
      ensures Blocks(list', size) == InsertFree(Blocks(list, size), Block(item, SizeAt(size, item)))
      ensures forall x :: x in old(next) && x !in list && x != item ==> next[x] == old(next)[x]
    {
      hide Linked, Position, Insert;
      LinkedHead(next, NULL, head, list);
      if head == NULL {
        list' := [item];
        next := next[item := NULL];
        LinkedPush(old(next), NULL, NULL, [], item);
        assert [item] + [] == [item];
        return item, list';
      }
      LinkedPush(next, NULL, head, list, item);
      next := next[item := head];
      ghost var longer := [item] + list;
      assert longer[1..] == list;
      NoDuplicatesPush(list, item);
      InsertBlocks(list, size, item);
      head', list' := SortPdListAscend(item, longer);
    }

    /** sort_free_list_ascend */
    method SortFreeListAscend(head: int, ghost list: seq<int>) returns (head': int, ghost list': seq<int>)
      requires IsList(head, list)
      modifies this`next
      ensures next.Keys == old(next.Keys)
      ensures Linked(next, NULL, head', list') && Addresses(list') && forall x :: x in list' ==> x in list
      ensures Blocks(list', size) == Sort(Blocks(list, size))
      ensures forall x :: x in old(next) && x !in list ==> next[x] == old(next)[x]
    {
      hide Linked, InsertFree, Blocks, NoDuplicates;
      LinkedHead(next, NULL, head, list);
      var sorted := NULL;
      var cur := head;
      ghost var done := [];
      ghost var i := 0;
      EmptyList(next);
      assert list[0..] == list;
      while cur != NULL
        invariant 0 <= i <= |list| && Linked(next, NULL, cur, list[i..])
        invariant Linked(next, NULL, sorted, done) && Addresses(done)
        invariant forall x :: x in done ==> x in list[..i]
        invariant next.Keys == old(next.Keys)
        invariant forall x :: x in old(next) && x !in list ==> next[x] == old(next)[x]
        invariant SortOnto(Blocks(done, size), Blocks(list, size)[i..]) == Sort(Blocks(list, size))
        decreases |list| - i
      {
        ghost var links := next;
        LinkedHead(next, NULL, cur, list[i..]);
        assert cur == list[i] && cur in list;
        SplitAt(list, i);
        var following := next[cur];
        LinkedTail(next, NULL, cur, list[i..]);
        assert list[i..][1..] == list[i + 1..];
        ghost var before := done;
        sorted, done := InsertFreeBlock(sorted, cur, done);
        LinkedFrame(links, next, NULL, following, list[i + 1..]);
        SortStep(Blocks(before, size), Blocks(list, size), i);
        cur := following;
        i := i + 1;
      }
      LinkedHead(next, NULL, cur, list[i..]);
      head', list' := sorted, done;
    }

    /** A block swallows its right neighbour. */
    method Absorb(cur: int, nx: int, ghost head: int, ghost list: seq<int>, ghost k: nat)
      requires IsList(head, list) && k + 1 < |list| && cur == list[k] && nx == list[k + 1]
      requires cur in size && nx in size && cur in next && nx in next
      requires cur + HEADER + size[cur] == nx && PageHash(cur) == PageHash(nx)
      modifies this`next, this`size
      ensures next.Keys == old(next.Keys) && size.Keys == old(size.Keys)
      ensures IsList(head, Without(list, k + 1)) && forall x :: x in Without(list, k + 1) ==> x in list
      ensures var was, now := Blocks(list, old(size)), Blocks(Without(list, k + 1), size);
              now[..k] + MergePass(now[k..]) == was[..k] + MergePass(was[k..])
      ensures forall x :: x in old(next) && x != cur ==> next[x] == old(next)[x]
      ensures forall x :: x in old(size) && x != cur ==> size[x] == old(size)[x]
    {
      hide Linked, Blocks, NoDuplicates, MergePass;
      LinkedRemove(next, NULL, head, list, k);
      NoDuplicatesWithout(list, k + 1);
      MergeStep(list, size, k);
      OthersDiffer(list, k, k + 1);
      size := size[cur := size[cur] + HEADER + size[nx]];
      next := next[cur := next[nx]];
    }

    /** The loop of merge_free_blocks. */
    method MergeNeighbours(head: int, ghost list: seq<int>) returns (ghost list': seq<int>)
      requires IsList(head, list) && forall x :: x in list ==> x in size
      modifies this`next, this`size
      ensures next.Keys == old(next.Keys) && size.Keys == old(size.Keys)
      ensures Linked(next, NULL, head, list') && Addresses(list') && forall x :: x in list' ==> x in list
      ensures Blocks(list', size) == MergePass(Blocks(list, old(size)))
      ensures forall x :: x in old(next) && x !in list ==> next[x] == old(next)[x]
      ensures forall x :: x in old(size) && x !in list ==> size[x] == old(size)[x]
    {
      hide Linked, Blocks, NoDuplicates, MergePass;
      ghost var goal := MergePass(Blocks(list, size));
      list' := list;
      var cur := head;
      ghost var k := 0;
      LinkedHead(next, NULL, head, list);
      LinkedCursor(next, NULL, head, list, 0);
      assert Blocks(list, size)[..0] + MergePass(Blocks(list, size)[0..]) == goal by {
        assert Blocks(list, size)[0..] == Blocks(list, size);
      }
      while cur != NULL && next[cur] != NULL
        invariant 0 <= k <= |list'| && cur == At(list', k, NULL) && (cur == NULL <==> k == |list'|)
        invariant k < |list'| ==>
            cur in next && next[cur] == At(list', k + 1, NULL) && (next[cur] == NULL <==> k + 1 == |list'|)
        invariant Linked(next, NULL, head, list') && Addresses(list')
        invariant forall x :: x in list' ==> x in list
        invariant next.Keys == old(next.Keys) && size.Keys == old(size.Keys)
        invariant Blocks(list', size)[..k] + MergePass(Blocks(list', size)[k..]) == goal
        invariant forall x :: x in old(next) && x !in list ==> next[x] == old(next)[x]
        invariant forall x :: x in old(size) && x !in list ==> size[x] == old(size)[x]
        decreases |list'| - k
      {
        var nx := next[cur];
        assert cur == list'[k] && nx == list'[k + 1] && cur in list' && nx in list';
        if cur + HEADER + size[cur] == nx && PageHash(cur) == PageHash(nx) {
          Absorb(cur, nx, head, list', k);
          list' := Without(list', k + 1);
        } else {
          KeepStep(list', size, k);
          cur := nx;
          k := k + 1;
        }
        LinkedCursor(next, NULL, head, list', k);
      }
      MergeEnd(Blocks(list', size), k);
    }

    /** merge_free_blocks */
    method MergeFreeBlocks(head: int, ghost list: seq<int>) returns (head': int, ghost list': seq<int>)
      requires IsList(head, list) && forall x :: x in list ==> x in size
      modifies this`next, this`size
      ensures next.Keys == old(next.Keys) && size.Keys == old(size.Keys)
      ensures Linked(next, NULL, head', list') && Addresses(list') && forall x :: x in list' ==> x in list
      ensures Blocks(list', size) == MergeFree(Blocks(list, old(size)))
      ensures forall x :: x in old(next) && x !in list ==> next[x] == old(next)[x]
      ensures forall x :: x in old(size) && x !in list ==> size[x] == old(size)[x]
    {
      hide Linked, Blocks, NoDuplicates, MergePass, SortOnto;
      LinkedHead(next, NULL, head, list);
      if head == NULL {
        BlocksOfNothing(size);
        return head, list;
      }
      head', list' := SortFreeListAscend(head, list);
      list' := MergeNeighbours(head', list');
      head', list' := SortFreeListAscend(head', list');
    }

    /** The scan of first_fit_alloc: the first free block that fits, with its predecessor. */
    method FindFit(n: int) returns (item: int, prev: int, ghost k: nat)
      requires Valid()
      ensures item == NULL <==> FitIndex(Blocks(free, size), n).None?
      ensures item != NULL ==>
          k < |free| && item == free[k] && prev == (if k == 0 then NULL else free[k - 1])
          && FitIndex(Blocks(free, size), n) == Some(k)
    {
      hide Linked, Blocks, NoDuplicates, FitIndex;
      item, prev := freeList, NULL;
      k := 0;
      LinkedHead(next, NULL, freeList, free);
      LinkedCursor(next, NULL, freeList, free, 0);
      while item != NULL
        invariant 0 <= k <= |free| && item == At(free, k, NULL) && (item == NULL <==> k == |free|)
        invariant prev == if k == 0 then NULL else free[k - 1]
        invariant forall j :: 0 <= j < k ==> !Fits(Blocks(free, size)[j], n)
        decreases |free| - k
      {
        assert item == free[k] && item in free;
        if size[item] == n || size[item] >= n + HEADER {
          FitIndexIs(Blocks(free, size), n, k);
          return;
        }
        LinkedCursor(next, NULL, freeList, free, k);
        prev, item := item, next[item];
        k := k + 1;
        LinkedCursor(next, NULL, freeList, free, k);
      }
      FitIndexFits(Blocks(free, size), n);
    }

    /** Pushing a block on the allocated list. */
    method PushAllocated(item: int)
      requires IsList(allocList, alloc) && item !in alloc && 0 < item <= STACK_BOTTOM
      modifies this`next, this`allocList, this`alloc
      ensures alloc == [item] + old(alloc) && IsList(allocList, alloc)
      ensures next == old(next)[item := old(allocList)]
    {
      hide Linked;
      LinkedPush(next, NULL, allocList, alloc, item);
      NoDuplicatesPush(alloc, item);
      next := next[item := allocList];
      allocList := item;
      alloc := [item] + alloc;
    }

    /** Taking the block at position `k` out of the free list. */
    method DetachFree(item: int, prev: int, ghost k: nat)
      requires IsList(freeList, free) && IsList(allocList, alloc) && (forall x :: x in free ==> x !in alloc)
      requires k < |free| && item == free[k] && prev == (if k == 0 then NULL else free[k - 1])
      modifies this`next, this`freeList, this`free
      ensures free == Without(old(free), k) && IsList(freeList, free) && IsList(allocList, alloc)
      ensures item !in free && forall x :: x in free ==> x in old(free)
      ensures next.Keys == old(next.Keys) && SameOff(old(next), next, Heads(old(free)))
    {
      hide Linked, NoDuplicates, Without;
      LinkedHead(next, NULL, freeList, free);
      LinkedHead(next, NULL, allocList, alloc);
      NoDuplicatesWithout(free, k);
      assert k > 0 ==> free[k - 1] in free;
      if prev != NULL {
        LinkedRemove(next, NULL, freeList, free, k - 1);
        assert prev in free && item in free;
        next := next[prev := next[item]];
        LinkedFrame(old(next), next, NULL, allocList, alloc);
      } else {
        LinkedTail(next, NULL, freeList, free);
        WithoutFirst(free);
        freeList := next[item];
      }
      free := Without(free, k);
      assert next.Keys == old(next.Keys);
    }

    /** first_fit_alloc, exact fit: the block moves from the free to the allocated list. */
    method TakeWhole(item: int, prev: int, n: int, ghost k: nat)
      requires Valid() && k < |free| && item == free[k] && prev == (if k == 0 then NULL else free[k - 1])
      requires size[item] == n
      modifies this`next, this`size, this`flag, this`freeList, this`allocList, this`free, this`alloc
      ensures Valid() && free == Without(old(free), k) && alloc == [item] + old(alloc)
      ensures size == old(size) && SameBut(old(Mem()), Mem(), Heads(old(free)))
    {
      hide Linked, NoDuplicates, Without, SameOff;
      assert item in free;
      PutOff(flag, item, 1, Heads(free));
      flag := flag[item := 1];
      size := size[item := 0];
      DetachFree(item, prev, k);
      ghost var links := next;
      LinkedHead(next, NULL, freeList, free);
      PushAllocated(item);
      LinkedFrame(links, next, NULL, freeList, free);
      PutThen(old(next), links, item, next[item], Heads(old(free)));
      Untouched(old(Mem()), Heads(old(free)));
      size := size[item := n];
      assert size == old(size);
    }

    /** Putting the header `item` in the place of the free block at position `k`. */
    method ReplaceFree(item: int, prev: int, rest: int, ghost k: nat)
      requires IsList(freeList, free) && IsList(allocList, alloc) && (forall x :: x in free ==> x !in alloc)
      requires k < |free| && item == free[k] && prev == (if k == 0 then NULL else free[k - 1])
      requires rest !in free && rest !in alloc && 0 < rest <= STACK_BOTTOM
      modifies this`next, this`freeList, this`free
      ensures free == old(free)[k := rest] && IsList(freeList, free) && IsList(allocList, alloc)
      ensures item !in free && forall x :: x in free ==> x in old(free) || x == rest
      ensures SameOff(old(next), next, Heads(old(free)) + {rest})
    {
      hide Linked, NoDuplicates;
      LinkedHead(next, NULL, freeList, free);
      LinkedHead(next, NULL, allocList, alloc);
      LinkedReplace(next, NULL, freeList, free, k, rest);
      NoDuplicatesReplace(free, k, rest);
      assert k > 0 ==> free[k - 1] in free;
      next := next[rest := next[item]];
      if prev != NULL {
        next := next[prev := rest];
      } else {
        freeList := rest;
      }
      LinkedFrame(old(next), next, NULL, allocList, alloc);
      AddressesReplace(free, k, rest);
      free := free[k := rest];
    }

    /** first_fit_alloc, split: the front of the block is handed out, the rest stays free. */
    method TakePart(item: int, prev: int, n: int, ghost k: nat)
      requires Valid() && k < |free| && item == free[k] && prev == (if k == 0 then NULL else free[k - 1])
      requires var rest := item + HEADER + n; rest !in free && rest !in alloc && 0 < rest <= STACK_BOTTOM
      modifies this`next, this`size, this`flag, this`freeList, this`allocList, this`free, this`alloc
      ensures Valid() && free == old(free)[k := item + HEADER + n] && alloc == [item] + old(alloc)
      ensures size == old(size)[item + HEADER + n := old(size)[item] - n - HEADER][item := n]
      ensures SameBut(old(Mem()), Mem(), Heads(old(free)) + {item + HEADER + n})
    {
      hide Linked, NoDuplicates, SameOff;
      assert item in free;
      var total := size[item];
      var rest := item + HEADER + n;
      ghost var touched := Heads(free) + {rest};
      Put2Off(flag, rest, 0, item, 1, touched);
      Put2Off(size, rest, total - n - HEADER, item, n, touched);
      flag := flag[rest := 0];
      size := size[rest := total - n - HEADER];
      ReplaceFree(item, prev, rest, k);
      flag := flag[item := 1];
      size := size[item := n];
      ghost var links := next;
      LinkedHead(next, NULL, freeList, free);
      PushAllocated(item);
      LinkedFrame(links, next, NULL, freeList, free);
      PutThen(old(next), links, item, next[item], touched);
    }

    /** first_fit_alloc */
    method FirstFitAlloc(n: int) returns (addr: int)
      requires Valid() && Inv(View()) && n > 0
      modifies this`next, this`size, this`flag, this`freeList, this`allocList, this`free, this`alloc
      ensures Valid()
      ensures (View(), addr) == FirstFit(old(View()), n)
      ensures SameBut(old(Mem()), Mem(), Heads(old(free)) + Heads(free))
      ensures addr == NULL ==> Mem() == old(Mem()) && free == old(free)
    {
      hide Linked, NoDuplicates, Blocks, FitIndex, Inv, SameBut;
      Untouched(Mem(), Heads(free) + Heads(free));
      if freeList == NULL {
        LinkedHead(next, NULL, freeList, free);
        FitIndexFits(Blocks(free, size), n);
        return NULL;
      }
      var item, prev, k := FindFit(n);
      if item == NULL {
        return NULL;
      }
      addr := item;
      FitIndexFits(Blocks(free, size), n);
      assert item in free;
      if size[item] == n {
        RemoveBlocks(free, size, k);
        PushBlocks(alloc, size, item);
        TakeWhole(item, prev, n, k);
        ButMore(old(Mem()), Mem(), Heads(old(free)), Heads(old(free)) + Heads(free));
      } else {
        RestIsNew(free, alloc, size, heapBottom, heapTop, lost, k, n);
        SplitBlocks(free, alloc, size, k, n);
        TakePart(item, prev, n, k);
        assert free[k] in free;
        ButMore(old(Mem()), Mem(), Heads(old(free)) + {free[k]}, Heads(old(free)) + Heads(free));
      }
    }

    /** The scan of first_fit_free over the allocated list. */
    method FindAllocated(addr: int) returns (item: int, prev: int, ghost k: nat)
      requires Valid()
      ensures item == NULL <==> FindAddr(Blocks(alloc, size), addr).None?
      ensures item != NULL ==>
          item == addr && k < |alloc| && alloc[k] == addr && prev == (if k == 0 then NULL else alloc[k - 1])
          && FindAddr(Blocks(alloc, size), addr) == Some(k)
    {
      hide Linked, Blocks, NoDuplicates, FindAddr;
      item, prev := allocList, NULL;
      k := 0;
      LinkedHead(next, NULL, allocList, alloc);
      LinkedCursor(next, NULL, allocList, alloc, 0);
      while item != NULL && item != addr
        invariant 0 <= k <= |alloc| && item == At(alloc, k, NULL) && (item == NULL <==> k == |alloc|)
        invariant prev == if k == 0 then NULL else alloc[k - 1]
        invariant forall j :: 0 <= j < k ==> alloc[j] != addr
        decreases |alloc| - k
      {
        LinkedCursor(next, NULL, allocList, alloc, k);
        prev, item := item, next[item];
        k := k + 1;
        LinkedCursor(next, NULL, allocList, alloc, k);
      }
      if item == NULL {
        FindAddrFinds(Blocks(alloc, size), addr);
      } else {
        FindAddrIs(Blocks(alloc, size), addr, k);
      }
    }

    /** Taking the block at position `k` out of the allocated list. */
    method DetachAllocated(item: int, prev: int, ghost k: nat)
      requires IsList(freeList, free) && IsList(allocList, alloc) && (forall x :: x in free ==> x !in alloc)
      requires k < |alloc| && item == alloc[k] && prev == (if k == 0 then NULL else alloc[k - 1])
      modifies this`next, this`allocList, this`alloc
      ensures alloc == Without(old(alloc), k) && IsList(freeList, free) && IsList(allocList, alloc)
      ensures item !in alloc && forall x :: x in alloc ==> x in old(alloc)
      ensures next.Keys == old(next.Keys) && SameOff(old(next), next, Heads(old(alloc)))
    {
      hide Linked, NoDuplicates, Without;
      LinkedHead(next, NULL, freeList, free);
      LinkedHead(next, NULL, allocList, alloc);
      NoDuplicatesWithout(alloc, k);
      assert k > 0 ==> alloc[k - 1] in alloc;
      if prev != NULL {
        LinkedRemove(next, NULL, allocList, alloc, k - 1);
        assert prev in alloc && item in alloc;
        next := next[prev := next[item]];
        LinkedFrame(old(next), next, NULL, freeList, free);
      } else {
        LinkedTail(next, NULL, allocList, alloc);
        WithoutFirst(alloc);
        allocList := next[item];
      }
      alloc := Without(alloc, k);
      assert next.Keys == old(next.Keys);
    }

    /** Linking a block in at the head of a list and sorting it to its place. */
    method Enlist(head: int, item: int, ghost list: seq<int>) returns (head': int, ghost list': seq<int>)
      requires IsList(head, list) && item !in list && 0 < item <= STACK_BOTTOM
      modifies this`next
      ensures Linked(next, NULL, head', list') && Addresses(list') && forall x :: x in list' ==> x in list || x == item
      ensures Blocks(list', size) == Resort(Blocks(list, size), Block(item, SizeAt(size, item)))
      ensures SameOff(old(next), next, Heads(list) + {item})
    {
      hide Linked, Position, Insert, Blocks;
      LinkedPush(next, NULL, head, list, item);
      next := next[item := head];
      ghost var longer := [item] + list;
      assert longer[1..] == list;
      NoDuplicatesPush(list, item);
      InsertBlocks(list, size, item);
      head', list' := SortPdListAscend(item, longer);
    }

    /** Putting a block back: sort it into the free list and merge. */
    method Release(item: int)
      requires Valid() && item !in free && item !in alloc && 0 < item <= STACK_BOTTOM
      requires item in size && item in flag && flag[item] == 0
      modifies this`next, this`size, this`freeList, this`free, this`lost
      ensures Valid() && alloc == old(alloc)
      ensures var listed := Resort(Blocks(old(free), old(size)), Block(item, old(size)[item]));
              && Blocks(free, size) == MergeFree(listed)
              && lost == old(lost) + |old(free)| + 1 - |listed| + Dropped(listed)
      ensures Blocks(alloc, size) == Blocks(old(alloc), old(size))
      ensures SameBut(old(Mem()), Mem(), Heads(old(free)) + {item})
    {
      hide Linked, NoDuplicates, Blocks, MergeFree, Dropped, Resort;
      LinkedHead(next, NULL, allocList, alloc);
      ghost var listed;
      freeList, listed := Enlist(freeList, item, free);
      assert forall x :: x in listed ==> x in size && x in flag && flag[x] == 0 && x !in alloc;
      lost := lost + |free| + 1 - |listed| + Dropped(Blocks(listed, size));
      LinkedFrame(old(next), next, NULL, allocList, alloc);
      MergeListed(listed);
    }

    /** Merging the free list and keeping the other one. */
    method MergeListed(ghost listed: seq<int>)
      requires IsList(freeList, listed) && IsList(allocList, alloc)
      requires (forall x :: x in listed ==> x !in alloc) && Flagged(listed, 0) && Flagged(alloc, 1)
      modifies this`next, this`size, this`freeList, this`free
      ensures Valid() && Blocks(free, size) == MergeFree(Blocks(listed, old(size)))
      ensures Blocks(alloc, size) == Blocks(alloc, old(size))
      ensures SameBut(old(Mem()), Mem(), Heads(listed))
    {
      hide Linked, NoDuplicates, Blocks, MergeFree;
      LinkedHead(next, NULL, allocList, alloc);
      freeList, free := MergeFreeBlocks(freeList, listed);
      LinkedFrame(old(next), next, NULL, allocList, alloc);
      FlaggedKept(old(size), size, flag, listed, free, 0);
      FlaggedKept(old(size), size, flag, alloc, alloc, 1);
      SameSizesSameBlocks(alloc, old(size), size);
    }

    /** first_fit_free once the block is found. */
    method FreeBlock(item: int, prev: int, ghost k: nat)
      requires Valid() && k < |alloc| && item == alloc[k] && prev == (if k == 0 then NULL else alloc[k - 1])
      requires FindAddr(Blocks(alloc, size), item) == Some(k)
      modifies this`next, this`size, this`flag, this`freeList, this`allocList, this`free, this`alloc, this`lost
      ensures Valid() && Some(View()) == Free(old(View()), item + HEADER)
      ensures SameBut(old(Mem()), Mem(), Heads(old(free)) + Heads(old(alloc)))
    {
      hide Linked, NoDuplicates, Blocks, MergeFree, Dropped, FindAddr, Insert, Without, SameOff;
      ghost var touched := Heads(free) + Heads(alloc);
      assert item in alloc;
      RemoveBlocks(alloc, size, k);
      PutOff(flag, item, 0, touched);
      Untouched(Mem(), touched);
      flag := flag[item := 0];
      DetachAllocated(item, prev, k);
      OffThen(old(next), old(next), next, touched, Heads(old(alloc)), touched);
      ghost var detached := Mem();
      assert SameBut(old(Mem()), detached, touched);
      hide SameBut;
      Release(item);
      ButThen(old(Mem()), detached, Mem(), touched, Heads(old(free)) + {item}, touched);
    }

    /** first_fit_free, and sys_user_free_mem around it: `ok` is false where the kernel panics. */
    method FreeMem(va: int) returns (ok: bool)
      requires Valid()
      modifies this`next, this`size, this`flag, this`freeList, this`allocList, this`free, this`alloc, this`lost
      ensures Valid()
      ensures ok <==> Free(old(View()), va).Some?
      ensures ok ==> View() == Free(old(View()), va).value
      ensures !ok ==> View() == old(View())
      ensures Inv(old(View())) ==>
                && (ok <==> exists b :: b in old(View()).alloc && b.addr == va - HEADER)
                && forall b :: b in old(View()).alloc && b.addr == va - HEADER ==> Released(old(View()), b, View())
      ensures Inv(old(View())) ==> PayloadsKept(old(Mem()), Mem(), old(View()).alloc, View().alloc)
    {
      hide Linked, NoDuplicates, Blocks, FindAddr, Without, Inv, SameBut, Mine, PayloadsKept;
      hide Resort, MergeFree, Dropped, Released;
      ghost var h, touched := View(), Heads(free) + Heads(alloc);
      HeadsAreMine(free, size, h);
      HeadsAreMine(alloc, size, h);
      Untouched(Mem(), touched);
      FindAddrFinds(Blocks(alloc, size), va - HEADER);
      var item, prev, k := FindAllocated(va - HEADER);
      ok := item != NULL;
      if ok {
        FreeBlock(item, prev, k);
      }
      if Inv(h) {
        FreeIsExact(h, va);
        forall b | b in h.alloc && b.addr == va - HEADER ensures Released(h, b, View()) { FreeReleases(h, b); }
        HeadersKeepPayloads(old(Mem()), Mem(), touched, h, View());
      }
    }

    /** The header of a block that is on neither list. */
    method NewHeader(item: int, bytes: int)
      requires Valid() && item !in free && item !in alloc
      modifies this`next, this`size, this`flag
      ensures Valid() && size == old(size)[item := bytes] && flag == old(flag)[item := 0]
      ensures next == old(next)[item := NULL]
      ensures Blocks(free, size) == Blocks(free, old(size)) && Blocks(alloc, size) == Blocks(alloc, old(size))
    {
      hide Linked, NoDuplicates, Blocks;
      LinkedHead(next, NULL, allocList, alloc);
      LinkedHead(next, NULL, freeList, free);
      flag := flag[item := 0];
      size := size[item := bytes];
      next := next[item := NULL];
      LinkedFrame(old(next), next, NULL, freeList, free);
      LinkedFrame(old(next), next, NULL, allocList, alloc);
      SameSizesSameBlocks(alloc, old(size), size);
      SameSizesSameBlocks(free, old(size), size);
    }

    /** A new free block above everything in use. */
    method AddFreeBlock(item: int, bytes: int)
      requires Valid() && item !in free && item !in alloc && 0 < item <= STACK_BOTTOM
      modifies this`next, this`size, this`flag, this`freeList, this`free
      ensures Valid() && size == old(size)[item := bytes]
      ensures Blocks(free, size) == InsertFree(Blocks(old(free), old(size)), Block(item, bytes))
      ensures Blocks(alloc, size) == Blocks(alloc, old(size))
      ensures forall x :: x in free ==> x in old(free) || x == item
      ensures SameBut(old(Mem()), Mem(), Heads(old(free)) + {item})
    {
      hide Linked, NoDuplicates, Blocks, InsertFree, SameOff;
      ghost var touched := Heads(free) + {item};
      PutOff(flag, item, 0, touched);
      PutOff(size, item, bytes, touched);
      PutOff(next, item, NULL, touched);
      NewHeader(item, bytes);
      LinkedHead(next, NULL, allocList, alloc);
      ghost var links := next;
      freeList, free := InsertFreeBlock(freeList, item, free);
      LinkedFrame(links, next, NULL, allocList, alloc);
      SameOffIs(links, next, old(free), item);
      OffThen(old(next), links, next, touched, touched, touched);
    }

    /** One more page: mapped at the top of the heap and added as a free block. */
    method AddPage()
      requires Valid() && Inv(View()) && heapTop + PGSIZE <= STACK_BOTTOM
      modifies this`next, this`size, this`flag, this`freeList, this`free, this`heapTop
      ensures Valid() && View() == GrowPage(old(View()))
      ensures SameBut(old(Mem()), Mem(), Heads(old(free)) + {old(heapTop)})
      ensures Heads(free) <= Heads(old(free)) + {old(heapTop)}
    {
      hide Linked, NoDuplicates, Blocks, InsertFree, Total, FreeOk, AllocOk;
      NothingAbove(free, alloc, size, heapBottom, heapTop, lost, heapTop);
      var va := heapTop;
      heapTop := heapTop + PGSIZE;
      AddFreeBlock(va, PGSIZE - HEADER);
    }

    /** The search for the free block with the highest address. */
    method FindHighest() returns (highest: int)
      requires Valid()
      ensures highest == if free == [] then NULL else free[HighestIndex(Blocks(free, size))]
    {
      hide Linked, NoDuplicates, Blocks, HighestIndex;
      highest := NULL;
      var block := freeList;
      ghost var k := 0;
      LinkedHead(next, NULL, freeList, free);
      LinkedCursor(next, NULL, freeList, free, 0);
      while block != NULL
        invariant 0 <= k <= |free| && block == At(free, k, NULL) && (block == NULL <==> k == |free|)
        invariant k == 0 ==> highest == NULL
        invariant k > 0 ==> highest == free[HighestIndex(Blocks(free, size)[..k])]
        decreases |free| - k
      {
        LinkedCursor(next, NULL, freeList, free, k);
        HighestStep(free, size, k);
        if highest == NULL || block > highest {
          highest := block;
        }
        block := next[block];
        k := k + 1;
        LinkedCursor(next, NULL, freeList, free, k);
      }
      assert Blocks(free, size)[..|free|] == Blocks(free, size);
    }

    /** The growth loop of the multi-page path: pages until `rest` bytes are covered. */
    method AddPages(rest: int) returns (i: int)
      modifies this`heapTop
      ensures i == PagesFor(rest) && heapTop == old(heapTop) + i * PGSIZE
    {
      i := 0;
      while i * PGSIZE < rest
        invariant 0 <= i <= PagesFor(rest)
        invariant heapTop == old(heapTop) + i * PGSIZE
      {
        heapTop := heapTop + PGSIZE;
        i := i + 1;
      }
    }

    /** A block above everything in use becomes an allocated block. */
    method AddAllocated(start: int, n: int)
      requires Valid() && 0 < start <= STACK_BOTTOM && start !in free && start !in alloc
      modifies this`next, this`size, this`flag, this`allocList, this`alloc
      ensures Valid() && alloc == [start] + old(alloc)
      ensures Blocks(free, size) == Blocks(free, old(size))
      ensures Blocks(alloc, size) == [Block(start, n)] + Blocks(old(alloc), old(size))
      ensures SameBut(old(Mem()), Mem(), {start})
    {
      hide Linked, NoDuplicates, Blocks;
      flag := flag[start := 1];
      size := size[start := n];
      SameSizesSameBlocks(free, old(size), size);
      SameSizesSameBlocks(alloc, old(size), size);
      PushBlocks(alloc, size, start);
      LinkedHead(next, NULL, freeList, free);
      PushAllocated(start);
      LinkedFrame(old(next), next, NULL, freeList, free);
    }

    /** The end of the multi-page path: pages for the missing bytes, the spare part of the last page
        as a free block, and the new block on the allocated list. */
    method FinishGrowth(start: int, n: int, rest: int)
      requires Valid() && 0 < start && n > 0 && rest + HEADER > 0
      requires (forall x :: x in free ==> x < start) && (forall x :: x in alloc ==> x < start)
      requires start + HEADER + n == heapTop + rest
      requires GrowOnto(View(), start, n, rest).0.top <= STACK_BOTTOM
      modifies this`next, this`size, this`flag, this`freeList, this`free, this`heapTop, this`allocList, this`alloc
      ensures Valid() && (View(), start) == GrowOnto(old(View()), start, n, rest)
      ensures SameBut(old(Mem()), Mem(), Heads(old(free)) + {start, start + HEADER + n})
    {
      hide Linked, NoDuplicates, Blocks, InsertFree, Addresses, SameBut;
      ghost var touched := Heads(free) + {start, start + HEADER + n};
      var i := AddPages(rest);
      var over := i * PGSIZE - rest;
      PagesCover(rest);
      Untouched(Mem(), touched);
      if i * PGSIZE != rest {
        var va := heapTop;
        heapTop := heapTop + PGSIZE;
        AddFreeBlock(va - over, PGSIZE + over - HEADER);
        ButMore(old(Mem()), Mem(), Heads(old(free)) + {va - over}, touched);
      }
      ghost var before := Mem();
      AddAllocated(start, n);
      ButThen(old(Mem()), before, Mem(), touched, {start}, touched);
    }

    /** remove_from_pd_list on the free list. */
    method RemoveFree(item: int, ghost j: nat)
      requires Valid() && j < |free| && free[j] == item
      modifies this`next, this`freeList, this`free
      ensures Valid() && free == Without(old(free), j) && forall x :: x in free <==> x in old(free) && x != item
      ensures Blocks(free, size) == Remove(Blocks(old(free), size), j)
      ensures SameBut(old(Mem()), Mem(), Heads(old(free)))
    {
      hide Linked, Blocks;
      NoDuplicatesWithout(free, j);
      RemoveBlocks(free, size, j);
      LinkedHead(next, NULL, freeList, free);
      LinkedHead(next, NULL, allocList, alloc);
      assert item in free;
      var found, head, k := Unlink(freeList, item, free);
      UniqueIndex(free, j, k);
      freeList := head;
      free := Without(free, k);
      LinkedFrame(old(next), next, NULL, allocList, alloc);
    }

    /** The topmost free block reaches the top: grow it. */
    method GrowFrom(item: int, n: int, ghost j: nat)
      requires Valid() && Inv(View()) && FitIndex(Blocks(free, size), n).None? && n + HEADER > PGSIZE
      requires free != [] && j == HighestIndex(Blocks(free, size)) && item == free[j]
          && End(Blocks(free, size)[j]) >= heapTop
      requires GrowMulti(View(), n).0.top <= STACK_BOTTOM
      modifies this`next, this`size, this`flag, this`freeList, this`free, this`heapTop, this`allocList, this`alloc
      ensures Valid() && (View(), item) == GrowMulti(old(View()), n)
      ensures SameBut(old(Mem()), Mem(), Heads(old(free)) + {item, item + HEADER + n})
    {
      hide Linked, NoDuplicates, Blocks, HighestIndex, Inv, GrowOnto, Without, SameBut;
      BelowStart(free, alloc, size, heapBottom, heapTop, lost, n);
      assert item in free;
      var have := size[item];
      RemoveFree(item, j);
      ghost var removed, rest := Mem(), Heads(free) + {item, item + HEADER + n};
      FinishGrowth(item, n, n - have);
      ButThen(old(Mem()), removed, Mem(), Heads(old(free)), rest, Heads(old(free)) + {item, item + HEADER + n});
    }

    /** No free block reaches the top: start in a new page. */
    method GrowAfresh(n: int) returns (addr: int)
      requires Valid() && Inv(View()) && FitIndex(Blocks(free, size), n).None? && n + HEADER > PGSIZE
      requires free == [] || End(Blocks(free, size)[HighestIndex(Blocks(free, size))]) < heapTop
      requires GrowMulti(View(), n).0.top <= STACK_BOTTOM
      modifies this`next, this`size, this`flag, this`freeList, this`free, this`heapTop, this`allocList, this`alloc
      ensures Valid() && (View(), addr) == GrowMulti(old(View()), n)
      ensures SameBut(old(Mem()), Mem(), Heads(old(free)) + {addr, addr + HEADER + n})
    {
      hide Linked, NoDuplicates, Blocks, HighestIndex, Inv, GrowOnto, SameOff;
      BelowStart(free, alloc, size, heapBottom, heapTop, lost, n);
      addr := heapTop;
      heapTop := heapTop + PGSIZE;
      PutOff(size, addr, PGSIZE - HEADER, Heads(free) + {addr, addr + HEADER + n});
      Untouched(Mem(), Heads(free) + {addr, addr + HEADER + n});
      size := size[addr := PGSIZE - HEADER];
      ghost var marked, touched := Mem(), Heads(free) + {addr, addr + HEADER + n};
      assert SameBut(old(Mem()), marked, touched);
      SameSizesSameBlocks(free, old(size), size);
      SameSizesSameBlocks(alloc, old(size), size);
      FinishGrowth(addr, n, n - (PGSIZE - HEADER));
      ButThen(old(Mem()), marked, Mem(), touched, touched, touched);
    }

    /** The multi-page path of sys_user_allocate_mem. */
    method GrowLarge(n: int) returns (addr: int)
      requires Valid() && Inv(View()) && n + HEADER > PGSIZE && FitIndex(Blocks(free, size), n).None?
      requires GrowMulti(View(), n).0.top <= STACK_BOTTOM
      modifies this`next, this`size, this`flag, this`freeList, this`free, this`heapTop, this`allocList, this`alloc
      ensures Valid() && (View(), addr) == GrowMulti(old(View()), n)
      ensures SameBut(old(Mem()), Mem(), Heads(old(free)) + {addr, addr + HEADER + n})
    {
      hide Linked, NoDuplicates, Blocks, HighestIndex, GrowMulti, FreeOk, AllocOk, Total, SameBut;
      addr := FindHighest();
      assert free != [] ==> addr in free;
      var have := if addr == NULL then 0 else size[addr];
      if addr + have + HEADER < heapTop {
        addr := NULL;
      }
      if addr != NULL {
        GrowFrom(addr, n, HighestIndex(Blocks(free, size)));
      } else {
        addr := GrowAfresh(n);
      }
    }

    /** The one-page path of sys_user_allocate_mem: map a page and search again. */
    method FitInPage(n: int) returns (a: int)
      requires Valid() && Inv(View()) && n > 0 && heapTop + PGSIZE <= STACK_BOTTOM
      modifies this`next, this`size, this`flag, this`freeList, this`free, this`heapTop, this`allocList, this`alloc
      ensures Valid() && (View(), a) == FirstFit(GrowPage(old(View())), n)
      ensures PayloadsKept(old(Mem()), Mem(), old(View()).alloc, View().alloc)
    {
      hide Linked, NoDuplicates, Blocks, Inv, FirstFit, GrowPage, SameBut, PayloadsKept;
      ghost var h, memory, was := View(), Mem(), free;
      GrowPageKeepsInv(h);
      AddPage();
      ghost var paged, mid := Mem(), Heads(free);
      FirstFitKeepsInv(View(), n);
      a := FirstFitAlloc(n);
      ButThen(memory, paged, Mem(), Heads(was) + {h.top}, mid + Heads(free), Heads(was) + Heads(free) + {h.top});
      TouchedKeepPayloads(was, old(size), h, free, size, View(), {h.top}, memory, Mem());
    }

    /** The multi-page path, and what it leaves alone. */
    method FitInPages(n: int) returns (a: int)
      requires Valid() && Inv(View()) && n + HEADER > PGSIZE && FitIndex(Blocks(free, size), n).None?
      requires GrowMulti(View(), n).0.top <= STACK_BOTTOM
      modifies this`next, this`size, this`flag, this`freeList, this`free, this`heapTop, this`allocList, this`alloc
      ensures Valid() && (View(), a) == GrowMulti(old(View()), n)
      ensures PayloadsKept(old(Mem()), Mem(), old(View()).alloc, View().alloc)
    {
      hide Linked, NoDuplicates, Blocks, Inv, GrowMulti, SameBut, PayloadsKept;
      ghost var h, was := View(), free;
      GrowMultiKeepsInv(h, n);
      GrownIsMine(h, n);
      a := GrowLarge(n);
      ghost var touched := {a, a + HEADER + n};
      ButMore(old(Mem()), Mem(), Heads(was) + touched, Heads(was) + Heads(free) + touched);
      TouchedKeepPayloads(was, old(size), h, free, size, View(), touched, old(Mem()), Mem());
    }

    /** sys_user_allocate_mem, with pages available and room below the stack. */
    method AllocateMem(request: int) returns (va: int)
      requires Valid() && Inv(View()) && Malloc(View(), request).0.top <= STACK_BOTTOM
      modifies this`next, this`size, this`flag, this`freeList, this`free, this`heapTop, this`allocList, this`alloc
      ensures Valid() && (View(), va) == Malloc(old(View()), request)
      ensures PayloadsKept(old(Mem()), Mem(), old(View()).alloc, View().alloc)
    {
      hide Linked, NoDuplicates, Blocks, Inv, FirstFit, GrowPage, GrowMulti, RoundUp8, SameBut, PayloadsKept;
      ghost var h, was := View(), free;
      Untouched(Mem(), {});
      HeadersKeepPayloads(Mem(), Mem(), {}, h, h);
      if request <= 0 {
        return NULL;
      }
      var n := RoundUp8(request);
      RoundUp8Bounds(request);
      FirstFitResult(h, n);
      FirstFitKeepsInv(h, n);
      var a := FirstFitAlloc(n);
      if a != NULL {
        ButMore(old(Mem()), Mem(), Heads(was) + Heads(free), Heads(was) + Heads(free) + {});
        TouchedKeepPayloads(was, old(size), h, free, size, View(), {}, old(Mem()), Mem());
        return a + HEADER;
      }
      InvTop(h);
      if n + HEADER <= PGSIZE {
        GrowPageTop(h, n);
        a := FitInPage(n);
        return if a == NULL then NULL else a + HEADER;
      } else {
        a := FitInPages(n);
        return a + HEADER;
      }
    }
  }

  lemma HeadsAreMine(list: seq<int>, size: Sizes, h: Heap)
    requires Blocks(list, size) == h.free || Blocks(list, size) == h.alloc
    ensures forall x :: x in Heads(list) ==> Mine(h, x)
  {
    hide Blocks;
    forall x | x in list
      ensures Mine(h, x)
    {
      var i :| 0 <= i < |list| && list[i] == x;
      assert Blocks(list, size)[i] in Blocks(list, size);
    }
  }

  lemma TouchedKeepPayloads(free: seq<int>, size: Sizes, h: Heap, free': seq<int>, size': Sizes, h': Heap,
                            more: set<int>, m: Memory, m': Memory)
    requires Blocks(free, size) == h.free && Blocks(free', size') == h'.free && Inv(h) && Inv(h')
    requires SameBut(m, m', Heads(free) + Heads(free') + more) && forall x :: x in more ==> Mine(h, x) || Mine(h', x)
    ensures PayloadsKept(m, m', h.alloc, h'.alloc)
  {
    hide Inv, Mine, SameBut, PayloadsKept, Blocks;
    HeadsAreMine(free, size, h);
    HeadsAreMine(free', size', h');
    HeadersKeepPayloads(m, m', Heads(free) + Heads(free') + more, h, h');
  }

  lemma SameOffIs(m: Words, m': Words, list: seq<int>, item: int)
    requires m'.Keys == m.Keys + {item} && forall x :: x in m && x !in list && x != item ==> m'[x] == m[x]
    ensures SameOff(m, m', Heads(list) + {item})
  {
  }

  lemma PagesCover(rest: int)
    requires rest + HEADER > 0
    ensures 0 <= PagesFor(rest) * PGSIZE - rest < PGSIZE
  {
  }

  lemma InvTop(h: Heap)
    requires Inv(h)
    ensures 0 < h.bottom <= h.top <= STACK_BOTTOM
  {
  }

  lemma UniqueIndex(list: seq<int>, i: nat, j: nat)
    requires NoDuplicates(list) && i < |list| && j < |list| && list[i] == list[j]
    ensures i == j
  {
  }

  /** Everything that stays lies below the start of a grown block. */
  lemma BelowStart(free: seq<int>, alloc: seq<int>, size: Sizes, bottom: int, top: int, lost: int, n: int)
    requires Inv(Heap(Blocks(free, size), Blocks(alloc, size), bottom, top, lost)) && NoDuplicates(free)
    requires FitIndex(Blocks(free, size), n).None?
    ensures (forall x :: x in free ==> x < top) && (forall x :: x in alloc ==> x < top) && top > 0
    ensures var b := Blocks(free, size);
            b != [] && End(b[HighestIndex(b)]) >= top ==>
              var j := HighestIndex(b);
              && End(b[j]) == top && 0 < free[j] && n - b[j].size + HEADER > 0 && n != b[j].size
              && (forall x :: x in free && x != free[j] ==> x < free[j])
              && (forall x :: x in alloc ==> x < free[j])
  {
    hide Total, Blocks, HighestIndex, FitIndex;
    var h := Heap(Blocks(free, size), Blocks(alloc, size), bottom, top, lost);
    forall i | 0 <= i < |free|
        ensures BlockOk(h.free[i], bottom, top, h.alloc) { BlockAt(h.free, bottom, top, h.alloc, i); }
    forall i | 0 <= i < |free| ensures free[i] < top { assert End(h.free[i]) <= top; }
    forall i | 0 <= i < |alloc| ensures alloc[i] < top { assert End(h.alloc[i]) <= top; }
    if h.free != [] && End(h.free[HighestIndex(h.free)]) >= top {
      HighestIsLast(h.free, bottom, top, h.alloc);
      var j := HighestIndex(h.free);
      FitIndexFits(h.free, n);
      assert !Fits(h.free[j], n);
      AllocBelowLast(h.free[j], h.alloc, bottom, top);
      forall i | 0 <= i < |alloc| ensures alloc[i] < free[j] { assert End(h.alloc[i]) <= h.free[j].addr; }
      forall i | 0 <= i < |free| && i != j ensures free[i] < free[j] { assert End(h.free[i]) <= h.free[j].addr; }
    }
  }

  /** No header lies at or above the top of the heap. */
  lemma NothingAbove(free: seq<int>, alloc: seq<int>, size: Sizes, bottom: int, top: int, lost: int, x: int)
    requires Inv(Heap(Blocks(free, size), Blocks(alloc, size), bottom, top, lost)) && top <= x
    ensures x !in free && x !in alloc && 0 < x
  {
    hide Total, Blocks;
    var h := Heap(Blocks(free, size), Blocks(alloc, size), bottom, top, lost);
    forall j | 0 <= j < |free| ensures free[j] != x { BlockAt(h.free, bottom, top, h.alloc, j); }
    forall j | 0 <= j < |alloc| ensures alloc[j] != x { assert End(h.alloc[j]) <= top; }
  }

  lemma HighestStep(list: seq<int>, size: Sizes, k: nat)
    requires k < |list| && forall x :: x in list ==> 0 < x
    ensures list[k] > 0
    ensures var b := Blocks(list, size);
            if k == 0 then HighestIndex(b[..1]) == 0
            else HighestIndex(b[..k + 1]) == if list[k] > list[HighestIndex(b[..k])] then k else HighestIndex(b[..k])
  {
    var b := Blocks(list, size);
    assert list[k] in list;
    assert b[..k + 1][..k] == b[..k];
  }

  lemma FlaggedKept(size: Sizes, size': Sizes, flag: map<int, int>, list: seq<int>, list': seq<int>, value: int)
    requires size'.Keys == size.Keys && (forall x :: x in list' ==> x in list)
    requires forall x :: x in list ==> x in size && x in flag && flag[x] == value
    ensures forall x :: x in list' ==> x in size' && x in flag && flag[x] == value
  {
  }

  lemma {:induction false} FindAddrIs(list: seq<Block>, addr: int, k: nat)
    requires k < |list| && list[k].addr == addr && forall j :: 0 <= j < k ==> list[j].addr != addr
    ensures FindAddr(list, addr) == Some(k)
  {
    if k > 0 {
      assert list[0].addr != addr;
      assert list[k] == list[1..][k - 1] && forall j :: 0 <= j < k - 1 ==> list[1..][j] == list[j + 1];
      FindAddrIs(list[1..], addr, k - 1);
    }
  }

  lemma AddressesReplace(list: seq<int>, k: nat, x: int)
    requires Addresses(list) && k < |list| && x !in list && 0 < x <= STACK_BOTTOM
    ensures Addresses(list[k := x])
  {
    NoDuplicatesReplace(list, k, x);
    var r := list[k := x];
    forall y | y in r
      ensures 0 < y <= STACK_BOTTOM
    {
      assert y in list || y == x;
    }
  }

  lemma PushBlocks(list: seq<int>, size: Sizes, x: int)
    ensures Blocks([x] + list, size) == [Block(x, SizeAt(size, x))] + Blocks(list, size)
  {
  }

  /** The header split off a free block is not a header yet. */
  lemma RestIsNew(free: seq<int>, alloc: seq<int>, size: Sizes, bottom: int, top: int, lost: int, k: nat, n: int)
    requires Inv(Heap(Blocks(free, size), Blocks(alloc, size), bottom, top, lost))
    requires k < |free| && n > 0 && SizeAt(size, free[k]) >= n + HEADER
    ensures var rest := free[k] + HEADER + n; rest !in free && rest !in alloc && 0 < rest <= STACK_BOTTOM
  {
    hide Total, Blocks;
    var h := Heap(Blocks(free, size), Blocks(alloc, size), bottom, top, lost);
    var b := h.free[k];
    BlockAt(h.free, bottom, top, h.alloc, k);
    var rest := free[k] + HEADER + n;
    forall j | 0 <= j < |free|
      ensures free[j] != rest
    {
      assert j < k ==> End(h.free[j]) <= b.addr;
      assert k < j ==> End(b) <= h.free[j].addr;
    }
    forall j | 0 <= j < |alloc|
      ensures alloc[j] != rest
    {
      assert Disjoint(b, h.alloc[j]);
    }
  }

  lemma SplitBlocks(free: seq<int>, alloc: seq<int>, size: Sizes, k: nat, n: int)
    requires k < |free| && free[k] in size && n > 0 && NoDuplicates(free)
    requires free[k] !in alloc
    requires var rest := free[k] + HEADER + n; rest !in free && rest !in alloc
    ensures var item, rest := free[k], free[k] + HEADER + n;
            var size' := size[rest := size[item] - n - HEADER][item := n];
            && Blocks(free[k := rest], size') == Blocks(free, size)[k := Block(rest, size[item] - n - HEADER)]
            && Blocks([item] + alloc, size') == [Block(item, n)] + Blocks(alloc, size)
  {
    var item, rest := free[k], free[k] + HEADER + n;
    var size' := size[rest := size[item] - n - HEADER][item := n];
    forall j | 0 <= j < |free| && j != k
      ensures SizeAt(size', free[j]) == SizeAt(size, free[j])
    {
      assert free[j] in free && free[j] != free[k];
    }
    SameSizesSameBlocks(alloc, size, size');
    PushBlocks(alloc, size', item);
  }

  lemma WithoutFirst(list: seq<int>)
    requires list != []
    ensures Without(list, 0) == list[1..]
  {
  }

  lemma BlocksOfNothing(size: Sizes)
    ensures Blocks([], size) == [] && MergeFree([]) == []
  {
  }

  lemma {:induction false} FitIndexIs(list: seq<Block>, n: int, k: nat)
    requires k < |list| && Fits(list[k], n) && forall j :: 0 <= j < k ==> !Fits(list[j], n)
    ensures FitIndex(list, n) == Some(k)
  {
    if k > 0 {
      assert !Fits(list[0], n);
      assert list[k] == list[1..][k - 1] && forall j :: 0 <= j < k - 1 ==> list[1..][j] == list[j + 1];
      FitIndexIs(list[1..], n, k - 1);
    }
  }

  lemma MergeStep(list: seq<int>, size: Sizes, k: nat)
    requires NoDuplicates(list) && k + 1 < |list| && list[k] in size && list[k + 1] in size
    requires Mergeable(Block(list[k], size[list[k]]), Block(list[k + 1], size[list[k + 1]]))
    ensures var size' := size[list[k] := size[list[k]] + HEADER + size[list[k + 1]]];
            var b, b' := Blocks(list, size), Blocks(Without(list, k + 1), size');
            b'[..k] + MergePass(b'[k..]) == b[..k] + MergePass(b[k..])
  {
    hide Mergeable;
    var size' := size[list[k] := size[list[k]] + HEADER + size[list[k + 1]]];
    var b, b' := Blocks(list, size), Blocks(Without(list, k + 1), size');
    assert forall j :: 0 <= j < |list| && j != k ==> list[j] != list[k];
    assert b'[..k] == b[..k];
    assert b[k..][0] == b[k] && b[k..][1] == b[k + 1] && b[k..][2..] == b[k + 2..];
    assert b'[k..] == [Block(b[k].addr, b[k].size + HEADER + b[k + 1].size)] + b[k + 2..];
  }

  lemma KeepStep(list: seq<int>, size: Sizes, k: nat)
    requires k + 1 < |list|
    requires !Mergeable(Block(list[k], SizeAt(size, list[k])), Block(list[k + 1], SizeAt(size, list[k + 1])))
    ensures var b := Blocks(list, size);
            b[..k + 1] + MergePass(b[k + 1..]) == b[..k] + MergePass(b[k..])
  {
    hide Mergeable;
    var b := Blocks(list, size);
    assert b[k..][0] == b[k] && b[k..][1] == b[k + 1] && b[k..][1..] == b[k + 1..];
    assert b[..k + 1] == b[..k] + [b[k]];
  }

  lemma MergeEnd(b: seq<Block>, k: nat)
    requires k <= |b| <= k + 1
    ensures b[..k] + MergePass(b[k..]) == b
  {
  }

  lemma EmptyList(next: Links)
    ensures Linked(next, NULL, NULL, []) && Addresses([]) && forall size: Sizes :: Blocks([], size) == []
  {
  }

  lemma SplitAt(list: seq<int>, i: nat)
    requires NoDuplicates(list) && i < |list|
    ensures list[i] !in list[..i] && list[i] !in list[i + 1..]
    ensures forall x :: x in list[..i] ==> x !in list[i..] && x in list && x in list[..i + 1]
    ensures list[i] in list[..i + 1] && forall x :: x in list[i + 1..] ==> x in list
  {
    assert list[..i + 1] == list[..i] + [list[i]];
  }

  lemma SortStep(done: seq<Block>, list: seq<Block>, i: nat)
    requires i < |list|
    ensures SortOnto(done, list[i..]) == SortOnto(InsertFree(done, list[i]), list[i + 1..])
  {
    assert list[i..][1..] == list[i + 1..];
  }

  lemma NoDuplicatesPush(list: seq<int>, x: int)
    requires NoDuplicates(list) && x !in list
    ensures NoDuplicates([x] + list)
  {
  }

  lemma OthersDiffer(list: seq<int>, i: nat, j: nat)
    requires NoDuplicates(list) && i < |list| && j < |list| && i != j
    ensures list[i] != list[j] && list[i] in list
  {
  }
}
