/** What malloc and free leave alone: the words of user memory that hold no header of theirs. */
module HeapFrames {
  import opened HeapBlocks
  import opened HeapInvariant
  import opened HeapRuns

  type Words = map<int, int>

  /** The three words of the headers, by header address. */
  datatype Memory = Memory(next: Words, size: Words, flag: Words)

  ghost function Heads(list: seq<int>): (s: set<int>)
    ensures forall x :: x in s <==> x in list
  {
    set x | x in list
  }

  /** A word is written at the addresses of `s` only. */
  ghost predicate SameOff(m: Words, m': Words, s: set<int>) {
    forall x :: x !in s ==> (x in m <==> x in m') && (x in m ==> m[x] == m'[x])
  }

  ghost predicate SameBut(m: Memory, m': Memory, s: set<int>) {
    SameOff(m.next, m'.next, s) && SameOff(m.size, m'.size, s) && SameOff(m.flag, m'.flag, s)
  }

  lemma PutOff(m: Words, x: int, v: int, s: set<int>)
    requires x in s
    ensures SameOff(m, m[x := v], s)
  {
  }

  lemma OffThen(a: Words, b: Words, c: Words, s: set<int>, t: set<int>, u: set<int>)
    requires SameOff(a, b, s) && SameOff(b, c, t) && s <= u && t <= u
    ensures SameOff(a, c, u)
  {
  }

  lemma ButThen(a: Memory, b: Memory, c: Memory, s: set<int>, t: set<int>, u: set<int>)
    requires SameBut(a, b, s) && SameBut(b, c, t) && s <= u && t <= u
    ensures SameBut(a, c, u)
  {
    hide SameOff;
    OffThen(a.next, b.next, c.next, s, t, u);
    OffThen(a.size, b.size, c.size, s, t, u);
    OffThen(a.flag, b.flag, c.flag, s, t, u);
  }

  lemma Put2Off(m: Words, x: int, v: int, y: int, w: int, s: set<int>)
    requires x in s && y in s
    ensures SameOff(m, m[x := v][y := w], s)
  {
  }

  lemma PutThen(a: Words, b: Words, x: int, v: int, s: set<int>)
    requires SameOff(a, b, s) && x in s
    ensures SameOff(a, b[x := v], s)
  {
  }

  lemma Untouched(m: Memory, s: set<int>)
    ensures SameBut(m, m, s)
  {
  }

  lemma ButMore(m: Memory, m': Memory, s: set<int>, u: set<int>)
    requires SameBut(m, m', s) && s <= u
    ensures SameBut(m, m', u)
  {
  }

  predicate SameAt(m: Memory, m': Memory, x: int) {
    && (x in m.next <==> x in m'.next) && (x in m.next ==> m.next[x] == m'.next[x])
    && (x in m.size <==> x in m'.size) && (x in m.size ==> m.size[x] == m'.size[x])
    && (x in m.flag <==> x in m'.flag) && (x in m.flag ==> m.flag[x] == m'.flag[x])
  }

  /** The header at `x` and the payload of `b` overlap. */
  predicate Meets(x: int, b: Block) {
    x < End(b) && b.addr + HEADER < x + HEADER
  }

  /** No header that was written reaches into the payload of a block that is and stays allocated. */
  ghost predicate PayloadsKept(m: Memory, m': Memory, alloc: seq<Block>, alloc': seq<Block>) {
    forall b, x :: b in alloc && b in alloc' && Meets(x, b) ==> SameAt(m, m', x)
  }

  lemma OutsideIsKept(m: Memory, m': Memory, s: set<int>, alloc: seq<Block>, alloc': seq<Block>)
    requires SameBut(m, m', s)
    requires forall b, x :: b in alloc && b in alloc' && x in s ==> !Meets(x, b)
    ensures PayloadsKept(m, m', alloc, alloc')
  {
    forall b, x | b in alloc && b in alloc' && Meets(x, b)
      ensures SameAt(m, m', x)
    {
      assert x !in s;
    }
  }

  /** Where the allocator may put a header: on a block, right behind an allocated one, above the heap. */
  ghost predicate Mine(h: Heap, x: int) {
    || h.top <= x
    || (exists b :: b in h.free && b.addr == x)
    || (exists b :: b in h.alloc && (b.addr == x || End(b) == x))
  }

  lemma FreeHeadOutside(h: Heap, i: nat, k: nat)
    requires Inv(h) && i < |h.free| && k < |h.alloc|
    ensures !Meets(h.free[i].addr, h.alloc[k])
  {
    hide Total, Spaced;
    BlockAt(h.free, h.bottom, h.top, h.alloc, i);
    assert Disjoint(h.free[i], h.alloc[k]);
  }

  lemma AllocHeadOutside(h: Heap, i: nat, k: nat)
    requires Inv(h) && i < |h.alloc| && k < |h.alloc|
    ensures !Meets(h.alloc[i].addr, h.alloc[k]) && !Meets(End(h.alloc[i]), h.alloc[k]) && End(h.alloc[k]) <= h.top
  {
    hide Total, FreeOk;
    assert i < k ==> Disjoint(h.alloc[i], h.alloc[k]);
    assert k < i ==> Disjoint(h.alloc[k], h.alloc[i]);
    assert h.alloc[i].size > 0 && h.alloc[k].size > 0;
  }

  lemma MineIsOutside(h: Heap, x: int, b: Block)
    requires Inv(h) && Mine(h, x) && b in h.alloc
    ensures !Meets(x, b)
  {
    hide Inv;
    var k :| 0 <= k < |h.alloc| && h.alloc[k] == b;
    AllocHeadOutside(h, k, k);
    if c :| c in h.free && c.addr == x {
      var i :| 0 <= i < |h.free| && h.free[i] == c;
      FreeHeadOutside(h, i, k);
    } else if h.top > x {
      var c :| c in h.alloc && (c.addr == x || End(c) == x);
      var i :| 0 <= i < |h.alloc| && h.alloc[i] == c;
      AllocHeadOutside(h, i, k);
    }
  }

  /** Headers written only where the heap before or after has one reach into no live payload. */
  lemma HeadersKeepPayloads(m: Memory, m': Memory, s: set<int>, h: Heap, h': Heap)
    requires Inv(h) && SameBut(m, m', s)
    requires forall x :: x in s ==> Mine(h, x) || (Inv(h') && Mine(h', x))
    ensures PayloadsKept(m, m', h.alloc, h'.alloc)
  {
    hide Inv, Mine, Meets, SameBut;
    forall b, x | b in h.alloc && b in h'.alloc && x in s
      ensures !Meets(x, b)
    {
      if Mine(h, x) {
        MineIsOutside(h, x, b);
      } else {
        MineIsOutside(h', x, b);
      }
    }
    OutsideIsKept(m, m', s, h.alloc, h'.alloc);
  }

  /** The block that multi-page growth hands out is the newest allocated one. */
  lemma GrownIsMine(h: Heap, n: int)
    ensures var (h', start) := GrowMulti(h, n); Mine(h', start) && Mine(h', start + HEADER + n)
  {
    hide HighestIndex, InsertFree, PagesFor;
    var (h', start) := GrowMulti(h, n);
    assert Block(start, n) == h'.alloc[0];
    assert Block(start, n) in h'.alloc && End(Block(start, n)) == start + HEADER + n;
  }
}
