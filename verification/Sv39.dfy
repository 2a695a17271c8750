/** Three-level Sv39 page tables (kernel/vmm.c, kernel/riscv.h).

    The tables of all address spaces live in pages from one allocator. They are shown to behave
    as flat maps from virtual page to leaf entry, one per root. */
module Sv39 {
  import opened Basics

  const PGSIZE: nat := 4096
  const MAXVA: nat := 0x40_0000_0000

  datatype Flag = V | R | W | X | U | G | A | D | COW

  /** A page table entry: the page address and the flag bits of the 64-bit word. */
  datatype Pte = Pte(pa: nat, flags: set<Flag>)

  const ZERO: Pte := Pte(0, {})

  type Table = s: seq<Pte> | |s| == 512 witness seq(512, i => Pte(0, {}))

  /** The pages in use as tables, by physical address. */
  type Tables = map<nat, Table>

  /** The table index of `va` at a level: 9 bits of the virtual page number. */
  function Px(level: nat, va: nat): (i: nat)
    requires level <= 2
    ensures i < 512
  {
    if level == 0 then va / 0x1000 % 512
    else if level == 1 then va / 0x20_0000 % 512
    else va / 0x4000_0000 % 512
  }

  /** Below MAXVA the three indices determine the page. */
  lemma IndicesAreInjective(va: nat, vb: nat)
    requires va < MAXVA && vb < MAXVA
    requires Px(0, va) == Px(0, vb) && Px(1, va) == Px(1, vb) && Px(2, va) == Px(2, vb)
    ensures va / PGSIZE == vb / PGSIZE
  {
    IndicesGivePage(va);
    IndicesGivePage(vb);
  }

  lemma IndicesGivePage(va: nat)
    requires va < MAXVA
    ensures va / PGSIZE == (Px(2, va) * 512 + Px(1, va)) * 512 + Px(0, va)
  {
    var n := va / PGSIZE;
    assert va / 0x20_0000 == n / 512;
    assert va / 0x4000_0000 == n / 512 / 512;
    assert n / 512 / 512 < 512;
  }

  lemma SamePageSameIndices(va: nat, vb: nat, level: nat)
    requires va / PGSIZE == vb / PGSIZE && level <= 2
    ensures Px(level, va) == Px(level, vb)
  {
    assert va / 0x20_0000 == va / PGSIZE / 512 && vb / 0x20_0000 == vb / PGSIZE / 512;
    assert va / 0x4000_0000 == va / PGSIZE / 512 / 512 && vb / 0x4000_0000 == vb / PGSIZE / 512 / 512;
  }

  // ---------------------------------------------------------------- translation

  /** The table that entry `i` of table `t` points to. */
  function Child(ts: Tables, t: nat, i: nat): Option<nat>
    requires i < 512
  {
    if t in ts && V in ts[t][i].flags then Some(ts[t][i].pa) else None
  }

  /** The lowest-level table for `va`, if the upper levels lead there. */
  function LowTable(ts: Tables, root: nat, va: nat): Option<nat> {
    match Child(ts, root, Px(2, va))
    case None => None
    case Some(mid) => Child(ts, mid, Px(1, va))
  }

  /** The flat view: the leaf word for the page of `va`, zero where there is no table. */
  function Leaf(ts: Tables, root: nat, va: nat): Pte {
    match LowTable(ts, root, va)
    case None => ZERO
    case Some(low) => if low in ts then ts[low][Px(0, va)] else ZERO
  }

  /** lookup_pa: the mapped page address, or 0. */
  function LookupPa(ts: Tables, root: nat, va: nat): nat {
    if va >= MAXVA then 0 else
      var e := Leaf(ts, root, va);
      if V !in e.flags || (R !in e.flags && W !in e.flags) then 0 else e.pa
  }

  /** user_va_to_pa: the physical address behind `va`, or 0. */
  function UserVaToPa(ts: Tables, root: nat, va: nat): nat {
    var pa := LookupPa(ts, root, va);
    if pa == 0 then 0 else pa + va % PGSIZE
  }

  // ---------------------------------------------------------------- the forest of tables

  /** Where a table page hangs: under which root, and by which indices. */
  datatype Place = Place(root: nat, path: seq<nat>)

  type Places = map<nat, Place>

  ghost predicate TableOk(ts: Tables, at: Places, t: nat)
    requires t in ts && t in at
  {
    && at[t].root in at && at[at[t].root] == Place(at[t].root, [])
    && |at[t].path| <= 2
    && (at[t].path == [] <==> at[t].root == t)
    && (|at[t].path| < 2 ==> forall i :: 0 <= i < 512 && V in ts[t][i].flags ==>
          ts[t][i].pa in at && at[ts[t][i].pa] == Place(at[t].root, at[t].path + [i]))
  }

  /** Every table page has one place: the tables form disjoint trees, and no table page is free. */
  ghost predicate ForestOk(ts: Tables, at: Places, free: seq<nat>) {
    && at.Keys == ts.Keys
    && (forall t {:trigger TableOk(ts, at, t)} :: t in ts ==> TableOk(ts, at, t))
    && (forall i :: 0 <= i < |free| ==> free[i] !in ts)
    && (forall i, j :: 0 <= i < j < |free| ==> free[i] != free[j])
  }

  /** A walk ends in the table placed for its indices. */
  lemma LowTablePlace(ts: Tables, at: Places, free: seq<nat>, root: nat, va: nat)
    requires ForestOk(ts, at, free) && root in ts && at[root] == Place(root, [])
    requires LowTable(ts, root, va).Some?
    ensures var low := LowTable(ts, root, va).value;
            low in ts && at[low] == Place(root, [Px(2, va), Px(1, va)])
  {
    assert TableOk(ts, at, root);
    var mid := ts[root][Px(2, va)].pa;
    assert at[mid] == Place(root, [] + [Px(2, va)]);
    assert TableOk(ts, at, mid);
    assert at[ts[mid][Px(1, va)].pa] == Place(root, ([] + [Px(2, va)]) + [Px(1, va)]);
  }

  /** Writing a leaf word changes the flat view of its own page and of nothing else, in any tree. */
  lemma LeafWrite(ts: Tables, at: Places, free: seq<nat>, root: nat, va: nat, e: Pte, r: nat, vb: nat)
    requires ForestOk(ts, at, free) && root in ts && at[root] == Place(root, []) && r in ts && at[r] == Place(r, [])
    requires va < MAXVA && vb < MAXVA && LowTable(ts, root, va).Some?
    ensures var low := LowTable(ts, root, va).value;
            && low in ts
            && Leaf(ts[low := ts[low][Px(0, va) := e]], r, vb) ==
               if r == root && va / PGSIZE == vb / PGSIZE then e else Leaf(ts, r, vb)
  {
    LowTablePlace(ts, at, free, root, va);
    var low := LowTable(ts, root, va).value;
    var ts' := ts[low := ts[low][Px(0, va) := e]];
    UpperWalkKept(ts, at, free, low, ts'[low], r, vb);
    if LowTable(ts, r, vb).Some? {
      LowTablePlace(ts, at, free, r, vb);
      if LowTable(ts, r, vb).value == low && Px(0, va) == Px(0, vb) {
        assert [Px(2, va), Px(1, va)][0] == [Px(2, vb), Px(1, vb)][0];
        assert [Px(2, va), Px(1, va)][1] == [Px(2, vb), Px(1, vb)][1];
        IndicesAreInjective(va, vb);
      }
    }
    if r == root && va / PGSIZE == vb / PGSIZE {
      forall level: nat | level <= 2 ensures Px(level, va) == Px(level, vb) { SamePageSameIndices(va, vb, level); }
    }
  }

  /** Changing a lowest-level table leaves the walks to all lowest-level tables alone. */
  lemma UpperWalkKept(ts: Tables, at: Places, free: seq<nat>, low: nat, content: Table, r: nat, vb: nat)
    requires ForestOk(ts, at, free) && low in ts && |at[low].path| == 2 && r in ts && at[r] == Place(r, [])
    ensures LowTable(ts[low := content], r, vb) == LowTable(ts, r, vb)
  {
    assert TableOk(ts, at, r);
    if V in ts[r][Px(2, vb)].flags {
      assert at[ts[r][Px(2, vb)].pa] == Place(r, [] + [Px(2, vb)]);
    }
  }

  /** Hanging a zeroed page into an empty entry of an upper table changes no flat view. */
  lemma LeafAfterNewTable(ts: Tables, at: Places, free: seq<nat>, t: nat, i: nat, page: nat, zeroed: Table, r: nat,
                          vb: nat)
    requires ForestOk(ts, at, free) && t in ts && |at[t].path| < 2 && i < 512 && V !in ts[t][i].flags
    requires page !in ts && r in ts && at[r] == Place(r, [])
    requires forall j :: 0 <= j < 512 ==> zeroed[j] == ZERO
    ensures Leaf(ts[t := ts[t][i := Pte(page, {V})]][page := zeroed], r, vb) == Leaf(ts, r, vb)
  {
    var ts' := ts[t := ts[t][i := Pte(page, {V})]][page := zeroed];
    assert TableOk(ts, at, r);
    if V in ts[r][Px(2, vb)].flags {
      var mid := ts[r][Px(2, vb)].pa;
      assert at[mid] == Place(r, [] + [Px(2, vb)]);
      assert TableOk(ts, at, mid);
      if V in ts[mid][Px(1, vb)].flags {
        LowTablePlace(ts, at, free, r, vb);
      }
    }
  }

  lemma NewTableKeepsForest(ts: Tables, at: Places, free: seq<nat>, t: nat, i: nat, zeroed: Table)
    requires ForestOk(ts, at, free) && free != [] && t in ts && |at[t].path| < 2 && i < 512 && V !in ts[t][i].flags
    requires forall j :: 0 <= j < 512 ==> zeroed[j] == ZERO
    ensures var page := free[0];
            ForestOk(ts[t := ts[t][i := Pte(page, {V})]][page := zeroed],
                     at[page := Place(at[t].root, at[t].path + [i])], free[1..])
  {
    var page := free[0];
    var ts' := ts[t := ts[t][i := Pte(page, {V})]][page := zeroed];
    var at' := at[page := Place(at[t].root, at[t].path + [i])];
    assert TableOk(ts, at, t);
    forall u | u in ts'
      ensures TableOk(ts', at', u)
    {
      if u != page {
        assert TableOk(ts, at, u);
      }
    }
    assert forall k :: 0 <= k < |free[1..]| ==> free[1..][k] == free[k + 1];
  }

  lemma LeafWriteKeepsForest(ts: Tables, at: Places, free: seq<nat>, low: nat, i: nat, e: Pte)
    requires ForestOk(ts, at, free) && low in ts && |at[low].path| == 2 && i < 512
    ensures ForestOk(ts[low := ts[low][i := e]], at, free)
  {
    var ts' := ts[low := ts[low][i := e]];
    forall u | u in ts'
      ensures TableOk(ts', at, u)
    {
      assert TableOk(ts, at, u);
    }
  }

  /** A zeroed page as a new root: the other trees are as before. */
  lemma NewRootKeepsForest(ts: Tables, at: Places, free: seq<nat>, zeroed: Table)
    requires ForestOk(ts, at, free) && free != [] && (forall j :: 0 <= j < 512 ==> zeroed[j] == ZERO)
    ensures ForestOk(ts[free[0] := zeroed], at[free[0] := Place(free[0], [])], free[1..])
  {
    var page := free[0];
    var ts', at' := ts[page := zeroed], at[page := Place(page, [])];
    forall u | u in ts'
      ensures TableOk(ts', at', u)
    {
      if u != page {
        assert TableOk(ts, at, u);
      }
    }
    assert forall k :: 0 <= k < |free[1..]| ==> free[1..][k] == free[k + 1];
  }

  lemma LeafAfterNewRoot(ts: Tables, at: Places, free: seq<nat>, page: nat, zeroed: Table, r: nat, vb: nat)
    requires ForestOk(ts, at, free) && page !in ts && r in ts && at[r] == Place(r, [])
    ensures Leaf(ts[page := zeroed], r, vb) == Leaf(ts, r, vb)
  {
    assert TableOk(ts, at, r);
    if V in ts[r][Px(2, vb)].flags {
      var mid := ts[r][Px(2, vb)].pa;
      assert at[mid] == Place(r, [] + [Px(2, vb)]);
      assert TableOk(ts, at, mid);
      if V in ts[mid][Px(1, vb)].flags {
        LowTablePlace(ts, at, free, r, vb);
      }
    }
  }

  /** Tables keep their places, and new ones hang below existing roots. */
  ghost predicate Extends(at: Places, at': Places) {
    && (forall u :: u in at ==> u in at' && at'[u] == at[u])
    && (forall u :: u in at' && u !in at ==> at'[u].path != [])
  }

  /** Two forests look the same through their flat views. */
  ghost predicate SameView(ts: Tables, ts': Tables, at: Places) {
    forall r, va :: r in at && at[r] == Place(r, []) && 0 <= va < MAXVA ==> Leaf(ts', r, va) == Leaf(ts, r, va)
  }

  lemma SameViewReflexive(ts: Tables, at: Places)
    ensures SameView(ts, ts, at)
  {
  }

  lemma SameViewTransitive(ts: Tables, at: Places, mid: Tables, at': Places, ts': Tables)
    requires SameView(ts, mid, at) && SameView(mid, ts', at')
    requires forall u :: u in at ==> u in at' && at'[u] == at[u]
    ensures SameView(ts, ts', at)
  {
  }

  /** The flat views after setting the leaf words of `n` pages from page number `first` of `root`:
      those pages have the entries of `leaf`, everything else is as before. */
  ghost predicate Remapped(ts: Tables, ts': Tables, at: Places, root: nat, first: nat, n: nat, leaf: nat -> Pte) {
    forall r, va :: r in at && at[r] == Place(r, []) && 0 <= va < MAXVA ==>
      Leaf(ts', r, va) ==
        if r == root && first <= va / PGSIZE < first + n then leaf(va / PGSIZE - first) else Leaf(ts, r, va)
  }

  /** The leaf word of one page has been replaced. */
  ghost predicate Rewritten(ts: Tables, ts': Tables, at: Places, root: nat, page: nat, e: Pte) {
    forall r, va :: r in at && at[r] == Place(r, []) && 0 <= va < MAXVA ==>
      Leaf(ts', r, va) == if r == root && va / PGSIZE == page then e else Leaf(ts, r, va)
  }

  lemma RemapNext(ts: Tables, mid: Tables, ts': Tables, at: Places, at': Places, root: nat, first: nat, n: nat,
                  leaf: nat -> Pte)
    requires Remapped(ts, mid, at, root, first, n, leaf)
    requires Rewritten(mid, ts', at', root, first + n, leaf(n))
    requires forall u :: u in at ==> u in at' && at'[u] == at[u]
    ensures Remapped(ts, ts', at, root, first, n + 1, leaf)
  {
  }

  lemma RemapThroughSameView(ts: Tables, mid: Tables, ts': Tables, at: Places, at': Places, root: nat, first: nat,
                             n: nat, leaf: nat -> Pte)
    requires Remapped(ts, mid, at, root, first, n, leaf)
    requires SameView(mid, ts', at')
    requires forall u :: u in at ==> u in at' && at'[u] == at[u]
    ensures Remapped(ts, ts', at, root, first, n, leaf)
  {
  }

  /** The leaf word of page number `page`. */
  function PageLeaf(ts: Tables, root: nat, page: nat): Pte {
    Leaf(ts, root, page * PGSIZE)
  }

  lemma NextPageUntouched(ts: Tables, ts': Tables, at: Places, root: nat, first: nat, n: nat, leaf: nat -> Pte)
    requires Remapped(ts, ts', at, root, first, n, leaf) && root in at && at[root] == Place(root, [])
    requires (first + n) * PGSIZE < MAXVA
    ensures PageLeaf(ts', root, first + n) == PageLeaf(ts, root, first + n)
  {
    assert (first + n) * PGSIZE / PGSIZE == first + n;
  }

  lemma LeafThroughSlot(ts: Tables, root: nat, page: nat, t: nat)
    requires LowTable(ts, root, page * PGSIZE) == Some(t) && t in ts
    ensures PageLeaf(ts, root, page) == ts[t][Px(0, page * PGSIZE)]
  {
  }

  /** After mapping, the addresses of the range translate to consecutive physical addresses, and every
      other address translates as before, in every address space. */
  lemma MappedTranslates(ts: Tables, ts': Tables, at: Places, root: nat, first: nat, n: nat, pa: nat, perm: set<Flag>,
                         r: nat, va: nat)
    requires Remapped(ts, ts', at, root, first, n, MappedLeaf(pa, perm)) && r in at && at[r] == Place(r, [])
    requires pa > 0 && pa % PGSIZE == 0 && (R in perm || W in perm)
    ensures UserVaToPa(ts', r, va) ==
              if r == root && va < MAXVA && first <= va / PGSIZE < first + n then pa + (va - first * PGSIZE)
              else UserVaToPa(ts, r, va)
  {
    hide Leaf;
    if va < MAXVA {
      assert Leaf(ts', r, va) ==
               if r == root && first <= va / PGSIZE < first + n then MappedLeaf(pa, perm)(va / PGSIZE - first)
               else Leaf(ts, r, va);
      var i: int := va / PGSIZE - first;
      assert va - first * PGSIZE == i * PGSIZE + va % PGSIZE;
      assert (pa + i * PGSIZE) / PGSIZE * PGSIZE == pa + i * PGSIZE;
    }
  }

  /** After unmapping, the addresses of the range translate to nothing, and every other address as before. */
  lemma UnmappedTranslates(ts: Tables, ts': Tables, at: Places, root: nat, first: nat, n: nat, r: nat, va: nat)
    requires Remapped(ts, ts', at, root, first, n, _ => ZERO) && r in at && at[r] == Place(r, [])
    ensures UserVaToPa(ts', r, va) ==
              if r == root && first <= va / PGSIZE < first + n then 0 else UserVaToPa(ts, r, va)
  {
    hide Leaf;
    if va < MAXVA {
      assert Leaf(ts', r, va) == if r == root && first <= va / PGSIZE < first + n then ZERO else Leaf(ts, r, va);
    }
  }

  lemma RemappedNothing(ts: Tables, at: Places, root: nat, first: nat, leaf: nat -> Pte)
    ensures Remapped(ts, ts, at, root, first, 0, leaf)
  {
  }

  lemma NoTableNoLeaf(ts: Tables, root: nat, page: nat)
    requires LowTable(ts, root, page * PGSIZE).None?
    ensures PageLeaf(ts, root, page) == ZERO
  {
  }

  /** A valid entry that points to a page, not to a table. */
  predicate IsLeaf(e: Pte) {
    V in e.flags && e.flags != {V}
  }

  /** The leaf words map_pages writes: consecutive frames, each valid with the permissions. */
  ghost function MappedLeaf(pa: nat, perm: set<Flag>): nat -> Pte {
    (i: nat) => Pte((pa + i * PGSIZE) / PGSIZE * PGSIZE, perm + {V})
  }

  // ---------------------------------------------------------------- ranges of addresses

  function PageOf(a: nat): nat { a / PGSIZE }

  /** The page of `a` holds a byte of the range. */
  ghost predicate Touched(a: nat, va: nat, size: nat) {
    exists b {:trigger PageOf(b)} :: va <= b < va + size && PageOf(b) == PageOf(a)
  }

  /** The whole range is mapped: every address on a page with a byte of it has the entry for the frame at
      the same distance from `pa`, and every other address of every address space the entry it had. */
  ghost predicate MapsRange(ts: Tables, ts': Tables, at: Places, root: nat, va: nat, size: nat, pa: nat,
                            perm: set<Flag>)
  {
    && va + size <= MAXVA
    && forall r, a :: r in at && at[r] == Place(r, []) && 0 <= a < MAXVA ==>
         RangeAt(ts, ts', root, va, size, pa, perm, r, a)
  }

  ghost predicate RangeAt(ts: Tables, ts': Tables, root: nat, va: nat, size: nat, pa: nat, perm: set<Flag>, r: nat,
                          a: nat)
  {
    Leaf(ts', r, a) ==
      if r == root && Touched(a, va, size)
      then Pte((pa + (PageOf(a) - PageOf(va)) * PGSIZE) / PGSIZE * PGSIZE, perm + {V})
      else Leaf(ts, r, a)
  }

  /** The pages of a range, by number. */
  lemma TouchedIs(a: nat, va: nat, size: nat)
    requires size > 0
    ensures Touched(a, va, size) <==> PageOf(va) <= PageOf(a) <= PageOf(va + size - 1)
  {
    if PageOf(va) <= PageOf(a) <= PageOf(va + size - 1) {
      var b := if PageOf(a) == PageOf(va) then va else PageOf(a) * PGSIZE;
      assert PageOf(b) == PageOf(a) && va <= b < va + size;
    }
  }

  /** Every byte of a mapped range translates to the physical address at the same distance, and every
      address on another page translates as before, in every address space. */
  lemma RangeTranslates(ts: Tables, ts': Tables, at: Places, root: nat, va: nat, size: nat, pa: nat, perm: set<Flag>,
                        r: nat, a: nat)
    requires MapsRange(ts, ts', at, root, va, size, pa, perm) && r in at && at[r] == Place(r, [])
    requires pa > 0 && pa % PGSIZE == 0 && (R in perm || W in perm)
    ensures r == root && va <= a < va + size ==> UserVaToPa(ts', r, a) == pa + (a - va / PGSIZE * PGSIZE)
    ensures r != root || !Touched(a, va, size) ==> UserVaToPa(ts', r, a) == UserVaToPa(ts, r, a)
  {
    hide Leaf;
    if r == root && va <= a < va + size {
      TouchedIs(a, va, size);
      assert RangeAt(ts, ts', root, va, size, pa, perm, r, a);
      var i: nat := PageOf(a) - PageOf(va);
      assert Leaf(ts', r, a) == Pte((pa + i * PGSIZE) / PGSIZE * PGSIZE, perm + {V});
      assert (pa + i * PGSIZE) / PGSIZE * PGSIZE == pa + i * PGSIZE;
    } else if a < MAXVA {
      assert RangeAt(ts, ts', root, va, size, pa, perm, r, a);
    }
  }
}
