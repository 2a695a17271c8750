/** Who owns the data blocks of an RFS volume, over whole runs of file operations. */
module RfsOwnership {
  import opened Basics
  import opened RfsFile
  import opened RfsVolume

  /** The blocks of a live inode: those of its vinode when it is cached, else those on disk. */
  ghost function Cur(s: State, n: int): seq<int>
    requires n in s.dinodes
  {
    if n in s.table && s.table[n] in s.vinodes then s.vinodes[s.table[n]].inode.blocks else s.dinodes[n].blocks
  }

  ghost predicate Owns(s: State, n: int, b: int) {
    n in s.dinodes && b in Cur(s, n)
  }

  /** Every block of a live inode is marked used and belongs to that inode alone, once. */
  ghost predicate BlocksOk(s: State) {
    && (forall n, b :: Owns(s, n, b) ==> b in s.used)
    && (forall n, m, b :: Owns(s, n, b) && Owns(s, m, b) ==> n == m)
    && (forall n :: n in s.dinodes ==> NoDuplicates(Cur(s, n)))
  }

  /** Blocks marked used that no live inode has. */
  ghost function Orphans(s: State): set<int> {
    set b | b in s.used && forall n :: !Owns(s, n, b)
  }

  /** The blocks an operation loses: unlink of the last name frees what the disk inode has, so blocks
      that a write gave to the vinode and that were not written back are lost. */
  ghost function Lost(s: State, e: Event): set<int> {
    if e.Unlink? && Backed(s, e.d) && s.dentries[e.d].opens == 0 && Node(s, e.d).inode.nlinks == 1
       && Node(s, e.d).inum in s.dinodes
    then BlockSet(Node(s, e.d).inode.blocks) - BlockSet(s.dinodes[Node(s, e.d).inum].blocks)
    else {}
  }

  // ---- three ways in which the owned blocks change ----

  ghost predicate SameCur(s: State, t: State, n: int) {
    n in s.dinodes && n in t.dinodes && Cur(t, n) == Cur(s, n)
  }

  lemma BlocksSame(s: State, t: State)
    requires BlocksOk(s) && t.used == s.used && t.dinodes.Keys == s.dinodes.Keys
    requires forall n :: n in s.dinodes ==> SameCur(s, t, n)
    ensures BlocksOk(t) && Orphans(t) == Orphans(s)
  {
    hide Cur, NoDuplicates;
    forall n, b
      ensures Owns(t, n, b) <==> Owns(s, n, b)
    {
      assert n in s.dinodes ==> SameCur(s, t, n);
    }
    forall n | n in t.dinodes
      ensures NoDuplicates(Cur(t, n))
    {
      assert SameCur(s, t, n);
    }
  }

  lemma BlocksAdd(s: State, t: State, n: int, more: seq<int>)
    requires BlocksOk(s) && Fresh(s, more) && t.used == s.used + BlockSet(more)
    requires t.dinodes.Keys == s.dinodes.Keys + {n}
    requires forall m :: m in s.dinodes && m != n ==> SameCur(s, t, m)
    requires Cur(t, n) == (if n in s.dinodes then Cur(s, n) else []) + more
    ensures BlocksOk(t) && Orphans(t) == Orphans(s)
  {
    hide Cur;
    forall m, c
      ensures Owns(t, m, c) <==> Owns(s, m, c) || (m == n && c in more)
    {
      assert m in s.dinodes && m != n ==> SameCur(s, t, m);
    }
    forall m | m in t.dinodes
      ensures NoDuplicates(Cur(t, m))
    {
      if m != n {
        assert SameCur(s, t, m);
      } else {
        assert n in s.dinodes ==> NoDuplicates(Cur(s, n)) && forall c :: c in more ==> !Owns(s, n, c);
      }
    }
    assert forall c :: c in more ==> Owns(t, n, c);
  }

  lemma BlocksDrop(s: State, t: State, n: int, freed: set<int>)
    requires BlocksOk(s) && n in s.dinodes && t.dinodes.Keys == s.dinodes.Keys - {n}
    requires freed <= BlockSet(Cur(s, n)) && t.used == s.used - freed
    requires forall m :: m in s.dinodes && m != n ==> SameCur(s, t, m)
    ensures BlocksOk(t) && Orphans(t) == Orphans(s) + (BlockSet(Cur(s, n)) - freed)
  {
    hide Cur, NoDuplicates;
    forall m, c
      ensures Owns(t, m, c) <==> Owns(s, m, c) && m != n
    {
      assert m in s.dinodes && m != n ==> SameCur(s, t, m);
    }
    forall m | m in t.dinodes
      ensures NoDuplicates(Cur(t, m))
    {
      assert SameCur(s, t, m);
    }
    assert forall c :: c in BlockSet(Cur(s, n)) <==> Owns(s, n, c);
    var after := Orphans(s) + (BlockSet(Cur(s, n)) - freed);
    forall c
      ensures c in Orphans(t) <==> c in after
    {
      if Owns(s, n, c) && c !in freed {
        assert forall m :: Owns(s, m, c) ==> m == n;
      } else if c in Orphans(t) {
        assert forall m :: Owns(s, m, c) ==> Owns(t, m, c);
      }
    }
  }

  // ---- every operation ----

  /** The vinode of a dentry has the blocks of its inode. */
  lemma CurOf(s: State, d: int)
    requires Inv(s) && Backed(s, d)
    ensures Node(s, d).inum in s.dinodes && Cur(s, Node(s, d).inum) == Node(s, d).inode.blocks
    ensures s.dinodes[Node(s, d).inum].blocks <= Node(s, d).inode.blocks
  {
    hide RefsOk, LinksOk, DentriesOk;
  }

  lemma LookupOrphans(s: State, p: int, name: string, d: int, v: int)
    requires Inv(s) && BlocksOk(s) && Enabled(s, Lookup(p, name, d, v))
    ensures var t := LookupStep(s, p, name, d, v); BlocksOk(t) && Orphans(t) == Orphans(s)
  {
    hide RefsOk, LinksOk, DentriesOk, Cached, BlocksOk, Orphans;
    BlocksSame(s, LookupStep(s, p, name, d, v));
  }

  lemma MakeOrphans(s: State, kind: Kind, p: int, name: string, d: int, v: int, n: int, b: int)
    requires Inv(s) && BlocksOk(s) && Enabled(s, Make(kind, p, name, d, v, n, b))
    ensures var t := MakeStep(s, kind, p, name, d, v, n, b); BlocksOk(t) && Orphans(t) == Orphans(s)
  {
    hide RefsOk, LinksOk, DentriesOk, Cached, BlocksOk, Orphans;
    TableLive(s.dinodes, s.vinodes, s.table, n);
    BlocksAdd(s, MakeStep(s, kind, p, name, d, v, n, b), n, [b]);
  }

  lemma CloseOrphans(s: State, d: int)
    requires Inv(s) && BlocksOk(s) && Enabled(s, Close(d))
    ensures var t := CloseStep(s, d); BlocksOk(t) && Orphans(t) == Orphans(s)
  {
    hide RefsOk, LinksOk, DentriesOk, BlocksOk, Orphans;
    BlocksSame(s, CloseStep(s, d));
  }

  lemma WriteOrphans(s: State, d: int, more: seq<int>, upto: nat)
    requires Inv(s) && BlocksOk(s) && Enabled(s, Write(d, more, upto))
    ensures var t := WriteStep(s, d, more, upto); BlocksOk(t) && Orphans(t) == Orphans(s)
  {
    hide RefsOk, LinksOk, DentriesOk, BlocksOk, Orphans;
    BlocksAdd(s, WriteStep(s, d, more, upto), Node(s, d).inum, more);
  }

  lemma LinkOrphans(s: State, o: int, p: int, name: string, d: int)
    requires Inv(s) && BlocksOk(s) && Enabled(s, Link(o, p, name, d))
    ensures var t := LinkStep(s, o, p, name, d); BlocksOk(t) && Orphans(t) == Orphans(s)
  {
    hide RefsOk, LinksOk, DentriesOk, Cached, BlocksOk, Orphans;
    BlocksSame(s, LinkStep(s, o, p, name, d));
  }

  lemma UnlinkOrphans(s: State, d: int)
    requires Inv(s) && BlocksOk(s) && Enabled(s, Unlink(d)) && UnlinkStep(s, d).Done?
    ensures var t := UnlinkStep(s, d).state; BlocksOk(t) && Orphans(t) == Orphans(s) + Lost(s, Unlink(d))
  {
    hide RefsOk, LinksOk, DentriesOk, BlocksOk, Orphans, Fiber;
    UnlinkFinds(s, d);
    CurOf(s, d);
    var n := Node(s, d).inum;
    if s.dentries[d].opens == 0 {
      if Node(s, d).inode.nlinks == 1 {
        UnlinkDrops(s, d);
        BlocksDrop(s, UnlinkStep(s, d).state, n, BlockSet(s.dinodes[n].blocks));
      } else {
        BlocksSame(s, UnlinkStep(s, d).state);
      }
    }
  }

  lemma UnlinkDrops(s: State, d: int)
    requires Inv(s) && Enabled(s, Unlink(d)) && UnlinkStep(s, d).Done?
    requires s.dentries[d].opens == 0 && Node(s, d).inode.nlinks == 1
    requires d != 0 && DentryOk(s, d) && s.entries[Place(s, d)] == Node(s, d).inum && Node(s, d).inum in s.dinodes
    ensures var t, n := UnlinkStep(s, d).state, Node(s, d).inum;
            && t.dinodes == s.dinodes - {n} && t.used == s.used - BlockSet(s.dinodes[n].blocks)
            && forall m :: m in s.dinodes && m != n ==> SameCur(s, t, m)
  {
    hide RefsOk, LinksOk, DentriesOk, Fiber;
  }

  lemma ResizeOrphans(s: State, p: int, size: int)
    requires Inv(s) && BlocksOk(s) && (Backed(s, p) ==> IsDir(s, p))
    ensures var t := Resized(s, p, size); BlocksOk(t) && Orphans(t) == Orphans(s)
  {
    hide RefsOk, LinksOk, DentriesOk, BlocksOk, Orphans;
    BlocksSame(s, Resized(s, p, size));
  }

  /** Conservation: an operation orphans exactly the blocks that it loses. */
  lemma StepOrphans(s: State, e: Event)
    requires Inv(s) && BlocksOk(s) && Enabled(s, e) && Step(s, e).Done?
    ensures BlocksOk(Step(s, e).state) && Orphans(Step(s, e).state) == Orphans(s) + Lost(s, e)
  {
    hide Inv, Cached, BlocksOk, Orphans, Resized, Lost;
    ParentStays(s, e);
    if !e.Unlink? {
      LosesNothing(s, e);
    }
    match e
    case Lookup(p, name, d, v) => LookupOrphans(s, p, name, d, v);
    case Make(kind, p, name, d, v, n, b) =>
      MakeOrphans(s, kind, p, name, d, v, n, b);
      MakeKeepsInv(s, kind, p, name, d, v, n, b);
      ResizeOrphans(MakeStep(s, kind, p, name, d, v, n, b), p, Node(s, p).inode.size + ENTRY);
    case Open(d) => OpenOrphans(s, d);
    case Close(d) => CloseOrphans(s, d);
    case Write(d, more, upto) => WriteOrphans(s, d, more, upto);
    case Link(o, p, name, d) =>
      LinkOrphans(s, o, p, name, d);
      LinkKeepsInv(s, o, p, name, d);
      ResizeOrphans(LinkStep(s, o, p, name, d), p, Node(s, p).inode.size + ENTRY);
    case Unlink(d) =>
      UnlinkOrphans(s, d);
      UnlinkKeepsInv(s, d);
      var p := s.dentries[d].parent;
      ResizeOrphans(UnlinkStep(s, d).state, p, Node(s, p).inode.size - ENTRY);
  }

  lemma LosesNothing(s: State, e: Event)
    requires !e.Unlink?
    ensures Lost(s, e) == {}
  {
  }

  lemma OpenOrphans(s: State, d: int)
    requires BlocksOk(s) && Enabled(s, Open(d))
    ensures var t := OpenStep(s, d); BlocksOk(t) && Orphans(t) == Orphans(s)
  {
    hide BlocksOk, Orphans;
    BlocksSame(s, OpenStep(s, d));
  }

  /** An unlink loses blocks exactly when it removes the last name of a file whose block count differs
      between stat and disk_stat. */
  lemma LosesWhen(s: State, d: int)
    requires Inv(s) && BlocksOk(s) && Enabled(s, Unlink(d))
    ensures Node(s, d).inum in s.dinodes
    ensures Lost(s, Unlink(d)) != {} <==>
              s.dentries[d].opens == 0 && Node(s, d).inode.nlinks == 1
              && |s.dinodes[Node(s, d).inum].blocks| != |Node(s, d).inode.blocks|
  {
    hide RefsOk, LinksOk, DentriesOk;
    CurOf(s, d);
    var n := Node(s, d).inum;
    var disk, now := s.dinodes[n].blocks, Cur(s, n);
    assert NoDuplicates(now);
    if |disk| < |now| {
      assert now[|disk|] in BlockSet(now) - BlockSet(disk);
    } else {
      assert disk == now;
    }
  }

  // ---- whole runs ----

  /** A run of operations from `s`, each of them possible when its turn comes. */
  ghost predicate Runs(s: State, es: seq<Event>)
    decreases |es|
  {
    es == [] || (Enabled(s, es[0]) && (Step(s, es[0]).Done? ==> Runs(Step(s, es[0]).state, es[1..])))
  }

  ghost function After(s: State, es: seq<Event>): Outcome
    requires Runs(s, es)
    decreases |es|
  {
    if es == [] then Done(s)
    else if Step(s, es[0]).Done? then After(Step(s, es[0]).state, es[1..])
    else Panic
  }

  /** Some operation of the run unlinks the last name of a file with blocks that are not on disk. */
  ghost predicate Loses(s: State, es: seq<Event>)
    requires Runs(s, es)
    decreases |es|
  {
    es != [] && (Lost(s, es[0]) != {} || (Step(s, es[0]).Done? && Loses(Step(s, es[0]).state, es[1..])))
  }

  lemma FormattedInv(first: int)
    ensures Inv(Formatted(first)) && BlocksOk(Formatted(first)) && Orphans(Formatted(first)) == {}
    ensures LengthsOk(Formatted(first))
  {
    var s := Formatted(first);
    assert Listed(s.entries, ROOT) == {};
    assert RefSet(s.dentries, 0) == {0};
    assert Fiber(s.entries, ROOT) == {};
    assert Owns(s, ROOT, first);
  }

  /** Over every run no assertion fires, the invariant holds, and the free map is exact unless the run
      unlinks the last name of a file whose newest blocks were never written back. */
  lemma {:induction false} RunsKeepInv(s: State, es: seq<Event>)
    requires Inv(s) && LengthsOk(s) && BlocksOk(s) && Runs(s, es)
    ensures After(s, es).Done? && Inv(After(s, es).state) && BlocksOk(After(s, es).state)
    ensures LengthsOk(After(s, es).state)
    ensures Orphans(s) <= Orphans(After(s, es).state)
    ensures Orphans(After(s, es).state) == Orphans(s) ==> Orphans(s) != {} || !Loses(s, es)
    ensures !Loses(s, es) ==> Orphans(After(s, es).state) == Orphans(s)
    decreases |es|
  {
    hide Inv, LengthsOk, BlocksOk, Enabled, Orphans, Lost, Step;
    if es != [] {
      StepKeepsInv(s, es[0]);
      StepKeepsLengths(s, es[0]);
      StepOrphans(s, es[0]);
      RunsKeepInv(Step(s, es[0]).state, es[1..]);
    }
  }

  /** A block is marked used if and only if exactly one live inode has it, after every run from a
      formatted volume in which no unlink loses blocks, and after no other run. */
  lemma BlockOwnership(first: int, es: seq<Event>)
    requires Runs(Formatted(first), es)
    ensures After(Formatted(first), es).Done?
    ensures var t := After(Formatted(first), es).state;
            !Loses(Formatted(first), es) <==> forall b :: b in t.used <==> exists n :: Owns(t, n, b)
    ensures var t := After(Formatted(first), es).state;
            forall n, m, b :: Owns(t, n, b) && Owns(t, m, b) ==> n == m
  {
    hide Runs, After, Loses, Inv, Owns;
    FormattedInv(first);
    RunsKeepInv(Formatted(first), es);
    var t := After(Formatted(first), es).state;
    OrphanFree(t);
  }

  lemma OrphanFree(t: State)
    requires BlocksOk(t)
    ensures Orphans(t) == {} <==> forall b :: b in t.used <==> exists n :: Owns(t, n, b)
  {
    if Orphans(t) == {} {
      forall b | b in t.used
        ensures exists n :: Owns(t, n, b)
      {
        assert b !in Orphans(t);
      }
    }
    if forall b :: b in t.used <==> exists n :: Owns(t, n, b) {
      assert forall b :: b in t.used ==> b !in Orphans(t);
      assert Orphans(t) == {};
    }
  }

  /** Over every run, each file's link count, in the vinode and on disk, is the number of entries that
      name it, each inode has at most one cached vinode, a directory is 32 bytes long for each of its
      entries, and unlink never panics. */
  lemma LinkCounts(first: int, es: seq<Event>)
    requires Runs(Formatted(first), es)
    ensures After(Formatted(first), es).Done?
    ensures var t := After(Formatted(first), es).state;
            && (forall n :: n in t.dinodes && t.dinodes[n].kind == FileKind ==>
                t.dinodes[n].nlinks == |Fiber(t.entries, n)| > 0)
            && (forall k :: k in t.entries ==> t.entries[k] in t.dinodes)
            && (forall v, w :: v in t.vinodes && w in t.vinodes && t.vinodes[v].inum == t.vinodes[w].inum ==> v == w)
            && (forall v :: v in t.vinodes ==> t.vinodes[v].inum in t.dinodes
                                               && t.vinodes[v].inode.nlinks == t.dinodes[t.vinodes[v].inum].nlinks
                                               && t.vinodes[v].ref == |RefSet(t.dentries, v)|)
            && (forall n :: n in t.dinodes ==> LengthOk(t, n))
  {
    hide Runs, After, Loses, Fiber, RefSet, DentriesOk, LengthOk;
    FormattedInv(first);
    RunsKeepInv(Formatted(first), es);
  }

  // ---- a run that loses a block, with every file closed before it is unlinked ----

  /** Create a file, link it while it is open, write to it, close it, unlink both names. */
  function LosingRun(b: int, c: int): seq<Event> {
    [Make(FileKind, 0, "a", 1, 1, 1, b), Link(1, 0, "b", 2), Write(1, [c], 4097), Close(1), Unlink(2),
     Lookup(0, "a", 3, 2), Unlink(3)]
  }

  /** The volume in the run: file 1 on disk and cached, with its entries and dentries. */
  function WithFile(first: int, used: set<int>, nlinks: int, disk: seq<int>, now: seq<int>, size: nat,
                    ref: int, length: nat, entries: map<Key, int>, dentries: map<int, Dentry>): State
  {
    var root := Inode(DirKind, 1, [first], length);
    State(map[ROOT := root, 1 := Inode(FileKind, nlinks, disk, 0)], entries, used,
      map[0 := Vinode(ROOT, root, 1), 1 := Vinode(1, Inode(FileKind, nlinks, now, size), ref)], map[ROOT := 0, 1 := 1],
      dentries)
  }

  const TOP := Dentry(-1, "/", 0, 0)

  function Created(first: int, b: int): State {
    WithFile(first, {first, b}, 1, [b], [b], 0, 1, 32, map[Key(0, "a") := 1], map[0 := TOP, 1 := Dentry(0, "a", 1, 1)])
  }

  function Linked(first: int, b: int): State {
    WithFile(first, {first, b}, 2, [b], [b], 0, 2, 64, map[Key(0, "a") := 1, Key(0, "b") := 1],
      map[0 := TOP, 1 := Dentry(0, "a", 1, 1), 2 := Dentry(0, "b", 1, 0)])
  }

  function Grown(first: int, b: int, c: int): State {
    WithFile(first, {first, b, c}, 2, [b], [b, c], 4097, 2, 64, map[Key(0, "a") := 1, Key(0, "b") := 1],
      map[0 := TOP, 1 := Dentry(0, "a", 1, 1), 2 := Dentry(0, "b", 1, 0)])
  }

  function Closed(first: int, b: int, c: int): State {
    WithFile(first, {first, b, c}, 2, [b], [b, c], 4097, 1, 64, map[Key(0, "a") := 1, Key(0, "b") := 1],
      map[0 := TOP, 2 := Dentry(0, "b", 1, 0)])
  }

  function Unlinked(first: int, b: int, c: int): State {
    WithFile(first, {first, b, c}, 1, [b], [b, c], 4097, 0, 32, map[Key(0, "a") := 1], map[0 := TOP])
  }

  function FoundAgain(first: int, b: int, c: int): State {
    WithFile(first, {first, b, c}, 1, [b], [b, c], 4097, 1, 32, map[Key(0, "a") := 1],
        map[0 := TOP, 3 := Dentry(0, "a", 1, 0)])
  }

  /** A new length of the root directory. */
  lemma RootResized(s: State, first: int, used: set<int>, nlinks: int, disk: seq<int>, now: seq<int>, size: nat,
                    ref: int, length: nat, length': nat, entries: map<Key, int>, dentries: map<int, Dentry>)
    requires s == WithFile(first, used, nlinks, disk, now, size, ref, length, entries, dentries)
    requires 0 in dentries && dentries[0] == TOP
    ensures Resized(s, 0, length') == WithFile(first, used, nlinks, disk, now, size, ref, length', entries, dentries)
  {
    var t := WithFile(first, used, nlinks, disk, now, size, ref, length', entries, dentries);
    assert Resized(s, 0, length').vinodes == t.vinodes && Resized(s, 0, length').dinodes == t.dinodes;
  }

  lemma FileCreated(first: int, b: int)
    requires b != first
    ensures var e := Make(FileKind, 0, "a", 1, 1, 1, b);
            Enabled(Formatted(first), e) && Step(Formatted(first), e) == Done(Created(first, b))
  {
    var t := Created(first, b);
    var core := MakeStep(Formatted(first), FileKind, 0, "a", 1, 1, 1, b);
    assert core == WithFile(first, {first, b}, 1, [b], [b], 0, 1, 0, t.entries, t.dentries);
    hide Resized, MakeStep;
    RootResized(core, first, {first, b}, 1, [b], [b], 0, 1, 0, 32, t.entries, t.dentries);
  }

  lemma LinkAllowed(first: int, b: int)
    requires b != first
    ensures Enabled(Created(first, b), Link(1, 0, "b", 2)) && Node(Created(first, b), 0).inode.size == 32
  {
    assert Created(first, b).dentries.Keys == {0, 1};
  }

  lemma FileLinked(first: int, b: int)
    requires b != first
    ensures var e := Link(1, 0, "b", 2);
            Enabled(Created(first, b), e) && Step(Created(first, b), e) == Done(Linked(first, b))
  {
    hide Enabled;
    LinkAllowed(first, b);
    var t := Linked(first, b);
    var core := LinkStep(Created(first, b), 1, 0, "b", 2);
    assert core == WithFile(first, {first, b}, 2, [b], [b], 0, 2, 32, t.entries, t.dentries);
    hide Resized, LinkStep, WithFile;
    RootResized(core, first, {first, b}, 2, [b], [b], 0, 2, 32, 64, t.entries, t.dentries);
  }

  lemma WriteThenClose(first: int, b: int, c: int)
    requires b != first && c != first && c != b
    ensures Enabled(Linked(first, b), Write(1, [c], 4097))
        && Step(Linked(first, b), Write(1, [c], 4097)) == Done(Grown(first, b, c))
    ensures Enabled(Grown(first, b, c), Close(1)) && Step(Grown(first, b, c), Close(1)) == Done(Closed(first, b, c))
  {
    assert [b] + [c] == [b, c];
  }

  lemma UnlinkAllowed(first: int, b: int, c: int)
    ensures Enabled(Closed(first, b, c), Unlink(2)) && Node(Closed(first, b, c), 0).inode.size == 64
  {
  }

  lemma FirstUnlink(first: int, b: int, c: int)
    requires b != first && c != first && c != b
    ensures Enabled(Closed(first, b, c), Unlink(2))
        && Step(Closed(first, b, c), Unlink(2)) == Done(Unlinked(first, b, c))
  {
    hide Enabled;
    UnlinkAllowed(first, b, c);
    var s, t := Closed(first, b, c), Unlinked(first, b, c);
    var core := UnlinkStep(s, 2).state;
    assert Key(0, "b") in s.entries && Key(0, "b") !in core.entries;
    assert core == WithFile(first, {first, b, c}, 1, [b], [b, c], 4097, 0, 64, t.entries, t.dentries);
    hide Resized, UnlinkStep, WithFile;
    RootResized(core, first, {first, b, c}, 1, [b], [b, c], 4097, 0, 64, 32, t.entries, t.dentries);
  }

  lemma ThenFind(first: int, b: int, c: int)
    requires b != first && c != first && c != b
    ensures var e := Lookup(0, "a", 3, 2);
            Enabled(Unlinked(first, b, c), e) && Step(Unlinked(first, b, c), e) == Done(FoundAgain(first, b, c))
  {
  }

  lemma LastUnlink(first: int, b: int, c: int)
    requires b != first && c != first && c != b
    ensures var s := FoundAgain(first, b, c);
            Enabled(s, Unlink(3)) && Step(s, Unlink(3)).Done? && Lost(s, Unlink(3)) == {c}
  {
  }

  lemma RunsFrom(s: State, e: Event, t: State, es: seq<Event>)
    requires Enabled(s, e) && Step(s, e) == Done(t) && Runs(t, es)
    ensures Runs(s, [e] + es) && After(s, [e] + es) == After(t, es)
    ensures Loses(t, es) || Lost(s, e) != {} ==> Loses(s, [e] + es)
  {
    assert ([e] + es)[1..] == es;
  }

  /** Block ownership is not an invariant of the source: this run loses block `c`. */
  lemma LosingRunLoses(first: int, b: int, c: int)
    requires b != first && c != first && c != b
    ensures Runs(Formatted(first), LosingRun(b, c)) && Loses(Formatted(first), LosingRun(b, c))
    ensures var t := After(Formatted(first), LosingRun(b, c));
            t.Done? && exists x :: x in t.state.used && forall n :: !Owns(t.state, n, x)
  {
    hide Enabled, Step, Lost, Runs, Loses, After, WithFile, Formatted, Inv, BlocksOk, Orphans;
    FileCreated(first, b);
    FileLinked(first, b);
    WriteThenClose(first, b, c);
    FirstUnlink(first, b, c);
    ThenFind(first, b, c);
    LastUnlink(first, b, c);
    var run := LosingRun(b, c);
    var s := FoundAgain(first, b, c);
    NoMore(Step(s, Unlink(3)).state);
    var es6 := [Unlink(3)];
    var es5 := [run[5]] + es6;
    var es4 := [run[4]] + es5;
    var es3 := [run[3]] + es4;
    var es2 := [run[2]] + es3;
    var es1 := [run[1]] + es2;
    assert run == [run[0]] + es1;
    RunsFrom(s, Unlink(3), Step(s, Unlink(3)).state, []);
    assert [Unlink(3)] + [] == es6;
    RunsFrom(Unlinked(first, b, c), run[5], s, es6);
    RunsFrom(Closed(first, b, c), run[4], Unlinked(first, b, c), es5);
    RunsFrom(Grown(first, b, c), run[3], Closed(first, b, c), es4);
    RunsFrom(Linked(first, b), run[2], Grown(first, b, c), es3);
    RunsFrom(Created(first, b), run[1], Linked(first, b), es2);
    RunsFrom(Formatted(first), run[0], Created(first, b), es1);
    FormattedInv(first);
    RunsKeepInv(Formatted(first), run);
    NotExact(After(Formatted(first), run).state, first, run);
  }

  lemma Member<T>(a: set<T>) returns (x: T)
    requires a != {}
    ensures x in a
  {
    x :| x in a;
  }

  lemma NoMore(s: State)
    ensures Runs(s, [])
  {
  }

  lemma NotExact(t: State, first: int, es: seq<Event>)
    requires Runs(Formatted(first), es) && Loses(Formatted(first), es) && After(Formatted(first), es) == Done(t)
    ensures exists x :: x in t.used && forall n :: !Owns(t, n, x)
  {
    hide Runs, Loses, After, Inv;
    FormattedInv(first);
    RunsKeepInv(Formatted(first), es);
    assert Orphans(t) != {};
    var x := Member(Orphans(t));
    assert x in t.used && forall n :: !Owns(t, n, x);
  }
}
