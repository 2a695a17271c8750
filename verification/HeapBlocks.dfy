/** The block lists of the user heap allocator (kernel/process.c, kernel/syscall.c) as values:
    first fit with splitting, address-ordered insertion, merging and heap growth.

    A block is a 24-byte header followed by its payload. */
module HeapBlocks {
  import opened Basics

  const PGSIZE: nat := 4096

  /** sizeof(pd) */
  const HEADER: nat := 24

  /** Heap addresses stay below the user stack, so address differences fit the comparison's int. */
  const STACK_BOTTOM: nat := 0x7FFF_E000

  datatype Block = Block(addr: int, size: int)

  function End(b: Block): int {
    b.addr + HEADER + b.size
  }

  predicate Disjoint(a: Block, b: Block) {
    End(a) <= b.addr || End(b) <= a.addr
  }

  /** `lost` counts the empty blocks that sorting has dropped. */
  datatype Heap = Heap(free: seq<Block>, alloc: seq<Block>, bottom: int, top: int, lost: int)

  // ---------------------------------------------------------------- first fit

  /** A free block serves a request exactly, or with room for another header. */
  predicate Fits(b: Block, n: int) {
    b.size == n || b.size >= n + HEADER
  }

  /** first_fit_alloc's scan: the first block of the list that fits. */
  function FitIndex(list: seq<Block>, n: int): Option<nat> {
    if list == [] then None
    else if Fits(list[0], n) then Some(0)
    else match FitIndex(list[1..], n)
         case None => None
         case Some(i) => Some(i + 1)
  }

  function Remove(list: seq<Block>, i: nat): seq<Block>
    requires i < |list|
  {
    list[..i] + list[i + 1..]
  }

  /** The free list after taking `n` bytes out of its block `i`. */
  function Take(list: seq<Block>, i: nat, n: int): seq<Block>
    requires i < |list| && Fits(list[i], n)
  {
    var b := list[i];
    if b.size == n then Remove(list, i)
    else list[i := Block(b.addr + HEADER + n, b.size - n - HEADER)]
  }

  /** first_fit_alloc: the heap after a request of `n` bytes, and the block's address (0: none). */
  function FirstFit(h: Heap, n: int): (Heap, int) {
    if n == 0 then (h, 0) else
      match FitIndex(h.free, n)
      case None => (h, 0)
      case Some(i) =>
        FitIndexFits(h.free, n);
        (h.(free := Take(h.free, i, n), alloc := [Block(h.free[i].addr, n)] + h.alloc), h.free[i].addr)
  }

  /** The block found is the first that fits; none is found only if none fits. */
  lemma {:induction false} FitIndexFits(list: seq<Block>, n: int)
    ensures match FitIndex(list, n)
            case None => forall j :: 0 <= j < |list| ==> !Fits(list[j], n)
            case Some(i) => i < |list| && Fits(list[i], n) && forall j :: 0 <= j < i ==> !Fits(list[j], n)
  {
    if list != [] && !Fits(list[0], n) {
      FitIndexFits(list[1..], n);
      forall j | 1 <= j < |list| ensures list[j] == list[1..][j - 1] {}
    }
  }

  // ---------------------------------------------------------------- ordered insertion and sorting

  /** pd_first_fit_cmp: the 64-bit difference, truncated to a signed int. */
  function Compare(a: int, b: int): int {
    var low := (a - b) % 0x1_0000_0000;
    if low < 0x8000_0000 then low else low - 0x1_0000_0000
  }

  /** Below the stack the truncation is harmless: the sign is the order of the addresses. */
  lemma CompareIsOrder(a: int, b: int)
    requires 0 <= a <= STACK_BOTTOM && 0 <= b <= STACK_BOTTOM
    ensures Compare(a, b) == a - b
  {
    if a < b {
      assert (a - b) % 0x1_0000_0000 == a - b + 0x1_0000_0000;
    }
  }

  /** In general the truncated difference is the true one exactly if that fits an int. */
  lemma CompareIsExact(a: int, b: int)
    ensures Compare(a, b) == a - b <==> -0x8000_0000 <= a - b < 0x8000_0000
  {
    var d, k := a - b, (a - b) / 0x1_0000_0000;
    assert d == k * 0x1_0000_0000 + d % 0x1_0000_0000;
  }

  /** Two addresses 2 GB apart compare the wrong way round. */
  lemma CompareCanFail()
    ensures Compare(0x8000_0000, 0) < 0
  {
  }

  /** sort_pd_list_ascend's splice: before the first block that does not lie below `b`. */
  function Insert(list: seq<Block>, b: Block): seq<Block> {
    if list == [] || b.addr <= list[0].addr then [b] + list
    else [list[0]] + Insert(list[1..], b)
  }

  /** sort_pd_list_ascend for a block moved to the front of the list: an empty block is dropped. */
  function Resort(list: seq<Block>, b: Block): seq<Block> {
    if b.size == 0 then list else Insert(list, b)
  }

  /** insert_free_block: an empty block enters only an empty list. */
  function InsertFree(list: seq<Block>, b: Block): seq<Block> {
    if list == [] then [b] else Resort(list, b)
  }

  /** sort_free_list_ascend, with `done` already sorted. */
  function SortOnto(done: seq<Block>, list: seq<Block>): seq<Block>
    decreases |list|
  {
    if list == [] then done else SortOnto(InsertFree(done, list[0]), list[1..])
  }

  function Sort(list: seq<Block>): seq<Block> {
    SortOnto([], list)
  }

  // ---------------------------------------------------------------- merging

  /** get_page_hash; the macro USER_FREE_ADDRESS_START expands without parentheses. */
  function PageHash(addr: int): int {
    (addr - 0 + PGSIZE * 1024) / PGSIZE
  }

  predicate Mergeable(a: Block, b: Block) {
    End(a) == b.addr && PageHash(a.addr) == PageHash(b.addr)
  }

  /** The pass of merge_free_blocks over the sorted list. */
  function MergePass(list: seq<Block>): seq<Block>
    decreases |list|
  {
    if |list| < 2 then list
    else if Mergeable(list[0], list[1]) then
      MergePass([Block(list[0].addr, list[0].size + HEADER + list[1].size)] + list[2..])
    else [list[0]] + MergePass(list[1..])
  }

  /** merge_free_blocks: sort, merge, sort again. */
  function MergeFree(list: seq<Block>): seq<Block> {
    Sort(MergePass(Sort(list)))
  }

  /** The blocks merge_free_blocks drops on the way. */
  function Dropped(list: seq<Block>): int {
    var merged := MergePass(Sort(list));
    (|list| - |Sort(list)|) + (|merged| - |Sort(merged)|)
  }

  // ---------------------------------------------------------------- malloc and free

  /** ROUNDUP(n, 8) for a positive request. */
  function RoundUp8(n: int): int
    requires n > 0
  {
    ((n - 1) / 8 + 1) * 8
  }

  /** One more page at the top of the heap, as a free block. */
  function GrowPage(h: Heap): Heap {
    h.(free := InsertFree(h.free, Block(h.top, PGSIZE - HEADER)), top := h.top + PGSIZE)
  }

  /** The index of the free block with the highest address. */
  function HighestIndex(list: seq<Block>): (i: nat)
    requires list != []
    ensures i < |list|
  {
    if |list| == 1 then 0
    else
      var i := HighestIndex(list[..|list| - 1]);
      if list[|list| - 1].addr > list[i].addr then |list| - 1 else i
  }

  lemma {:induction false} HighestIsHighest(list: seq<Block>)
    requires list != []
    ensures forall j :: 0 <= j < |list| ==> list[j].addr <= list[HighestIndex(list)].addr
  {
    if |list| > 1 {
      var most := list[..|list| - 1];
      HighestIsHighest(most);
      forall j | 0 <= j < |most| ensures list[j] == most[j] {}
    }
  }

  /** The pages the growth loop maps for `rest` missing bytes. */
  function PagesFor(rest: int): nat {
    if rest <= 0 then 0 else (rest - 1) / PGSIZE + 1
  }

  /** Multi-page growth: the new block starts in the topmost free block if that reaches the top
      of the heap, and in a new page otherwise. */
  function GrowMulti(h: Heap, n: int): (Heap, int) {
    var reuse := h.free != [] && End(h.free[HighestIndex(h.free)]) >= h.top;
    var i := if reuse then HighestIndex(h.free) else 0;
    var start := if reuse then h.free[i].addr else h.top;
    var have := if reuse then h.free[i].size else PGSIZE - HEADER;
    var free := if reuse then Remove(h.free, i) else h.free;
    var top := if reuse then h.top else h.top + PGSIZE;
    GrowOnto(h.(free := free, top := top), start, n, n - have)
  }

  /** The growth loop and its last page: `rest` bytes are missing above the top of the heap. */
  function GrowOnto(h: Heap, start: int, n: int, rest: int): (Heap, int) {
    var pages := PagesFor(rest);
    var top := h.top + pages * PGSIZE;
    var over := pages * PGSIZE - rest;
    var grown :=
      if over == 0 then h.(top := top)
      else h.(free := InsertFree(h.free, Block(top - over, PGSIZE + over - HEADER)), top := top + PGSIZE);
    (grown.(alloc := [Block(start, n)] + h.alloc), start)
  }

  /** sys_user_allocate_mem: the heap afterwards and the returned address (0: NULL). */
  function Malloc(h: Heap, request: int): (Heap, int) {
    if request <= 0 then (h, 0) else
      var n := RoundUp8(request);
      var (h1, a) := FirstFit(h, n);
      if a != 0 then (h1, a + HEADER)
      else if n + HEADER <= PGSIZE then
        var (h2, b) := FirstFit(GrowPage(h), n);
        (h2, if b == 0 then 0 else b + HEADER)
      else
        var (h2, b) := GrowMulti(h, n);
        (h2, b + HEADER)
  }

  /** The position of an allocated block, by address. */
  function FindAddr(list: seq<Block>, addr: int): Option<nat> {
    if list == [] then None
    else if list[0].addr == addr then Some(0)
    else match FindAddr(list[1..], addr)
         case None => None
         case Some(i) => Some(i + 1)
  }

  lemma {:induction false} FindAddrFinds(list: seq<Block>, addr: int)
    ensures match FindAddr(list, addr)
            case None => forall j :: 0 <= j < |list| ==> list[j].addr != addr
            case Some(i) => i < |list| && list[i].addr == addr
  {
    if list != [] && list[0].addr != addr {
      FindAddrFinds(list[1..], addr);
      forall j | 1 <= j < |list| ensures list[j] == list[1..][j - 1] {}
    }
  }

  /** sys_user_free_mem of a pointer; None is the panic on an address that is not allocated. */
  function Free(h: Heap, va: int): Option<Heap> {
    match FindAddr(h.alloc, va - HEADER)
    case None => None
    case Some(i) =>
      FindAddrFinds(h.alloc, va - HEADER);
      var listed := Resort(h.free, h.alloc[i]);
      var dropped := |h.free| + 1 - |listed| + Dropped(listed);
      Some(h.(free := MergeFree(listed), alloc := Remove(h.alloc, i), lost := h.lost + dropped))
  }
}
