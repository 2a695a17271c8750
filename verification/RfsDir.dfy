/** RFS directories (kernel/rfs.c): files of 32-byte entries, an inode number and a name. */
module RfsDir {
  import opened RfsFile
  import opened RfsBlocks
  import opened Strings

  /** The byte at `x` after one entry has been cut out at byte `at`, over whole blocks: the bytes behind
      move forward; the last entry of the last block is left behind. */
  ghost function Shifted(disk: seq<Block>, f: File, at: nat, x: nat): Byte
    requires FileOk(disk, f) && x < f.blocks * BLKSIZE
  {
    if x < at || x + ENTRY >= f.blocks * BLKSIZE then Cell(disk, f.addrs, x) else Cell(disk, f.addrs, x + ENTRY)
  }

  /** Block `j` holds the shifted bytes, up to byte `upto`. */
  ghost predicate ShiftedTo(disk: seq<Block>, f: File, at: nat, j: nat, upto: nat, b: Block)
    requires FileOk(disk, f) && j < f.blocks && upto <= BLKSIZE
  {
    forall y :: 0 <= y < upto ==> b[y] == Shifted(disk, f, at, j * BLKSIZE + y)
  }

  /** Compaction in progress: blocks before `i` hold their final bytes, the others their old ones. */
  ghost predicate Compacting(disk0: seq<Block>, f: File, at: nat, i: nat, disk: seq<Block>) {
    && FileOk(disk0, f) && i <= f.blocks && |disk| == |disk0|
    && (forall b :: 0 <= b < |disk| && b !in f.addrs[..i] ==> disk[b] == disk0[b])
    && (forall j :: 0 <= j < i ==> ShiftedTo(disk0, f, at, j, BLKSIZE, disk[f.addrs[j]]))
  }

  lemma CompactingStarts(disk: seq<Block>, f: File, at: nat)
    requires FileOk(disk, f) && at < f.blocks * BLKSIZE
    ensures Compacting(disk, f, at, at / BLKSIZE, disk)
  {
    var i := at / BLKSIZE;
    forall j, y | 0 <= j < i && 0 <= y < BLKSIZE
      ensures disk[f.addrs[j]][y] == Shifted(disk, f, at, j * BLKSIZE + y)
    {
      Locate(j, y);
    }
  }

  lemma CompactingWrite(disk0: seq<Block>, f: File, at: nat, i: nat, disk: seq<Block>, b: Block)
    requires Compacting(disk0, f, at, i, disk) && i < f.blocks && ShiftedTo(disk0, f, at, i, BLKSIZE, b)
    ensures Compacting(disk0, f, at, i + 1, disk[f.addrs[i] := b])
  {
    hide Shifted;
    assert f.addrs[..i + 1] == f.addrs[..i] + [f.addrs[i]];
  }

  /** The block with the entry, after memmove. */
  lemma CutFirst(disk: seq<Block>, f: File, at: nat)
    requires FileOk(disk, f) && at + ENTRY <= f.blocks * BLKSIZE && at % ENTRY == 0
    ensures var i, o := at / BLKSIZE, at % BLKSIZE;
            o + ENTRY <= BLKSIZE
            && ShiftedTo(disk, f, at, i, BLKSIZE - ENTRY, Moved(disk[f.addrs[i]], o, o + ENTRY, BLKSIZE - o - ENTRY))
            && (i == f.blocks - 1 ==>
                  ShiftedTo(disk, f, at, i, BLKSIZE, Moved(disk[f.addrs[i]], o, o + ENTRY, BLKSIZE - o - ENTRY)))
  {
    hide Shifted, Moved;
    var i, o := at / BLKSIZE, at % BLKSIZE;
    assert at == i * BLKSIZE + o;
    var b := disk[f.addrs[i]];
    var moved := Moved(b, o, o + ENTRY, BLKSIZE - o - ENTRY);
    forall y | 0 <= y < BLKSIZE && (y < BLKSIZE - ENTRY || i == f.blocks - 1)
      ensures moved[y] == Shifted(disk, f, at, i * BLKSIZE + y)
    {
      ShiftInBlock(disk, f, at, i, y);
      MovedAt(b, o, o + ENTRY, BLKSIZE - o - ENTRY, y);
    }
  }

  /** Where the shifted byte of a block comes from. */
  lemma ShiftInBlock(disk: seq<Block>, f: File, at: nat, i: nat, y: nat)
    requires FileOk(disk, f) && i < f.blocks && y < BLKSIZE && at / BLKSIZE <= i
    ensures y < BLKSIZE - ENTRY ==>
              Shifted(disk, f, at, i * BLKSIZE + y) ==
                if i * BLKSIZE + y < at then disk[f.addrs[i]][y] else disk[f.addrs[i]][y + ENTRY]
    ensures y >= BLKSIZE - ENTRY && i == f.blocks - 1 ==> Shifted(disk, f, at, i * BLKSIZE + y) == disk[f.addrs[i]][y]
    ensures y >= BLKSIZE - ENTRY && i < f.blocks - 1 && at <= i * BLKSIZE + BLKSIZE - ENTRY ==>
              Shifted(disk, f, at, i * BLKSIZE + y) == disk[f.addrs[i + 1]][y + ENTRY - BLKSIZE]
  {
    Locate(i, y);
    if y < BLKSIZE - ENTRY {
      Locate(i, y + ENTRY);
    } else if i < f.blocks - 1 {
      Locate(i + 1, y + ENTRY - BLKSIZE);
    }
  }

  /** The first entry of the next block completes a block. */
  lemma FillLast(disk: seq<Block>, f: File, at: nat, i: nat, b: Block)
    requires FileOk(disk, f) && at % ENTRY == 0 && at / BLKSIZE <= i < f.blocks - 1
    requires ShiftedTo(disk, f, at, i, BLKSIZE - ENTRY, b)
    ensures ShiftedTo(disk, f, at, i, BLKSIZE, b[..BLKSIZE - ENTRY] + disk[f.addrs[i + 1]][..ENTRY])
  {
    hide Shifted;
    var filled := b[..BLKSIZE - ENTRY] + disk[f.addrs[i + 1]][..ENTRY];
    forall y | BLKSIZE - ENTRY <= y < BLKSIZE
      ensures filled[y] == Shifted(disk, f, at, i * BLKSIZE + y)
    {
      ShiftInBlock(disk, f, at, i, y);
    }
  }

  /** A block behind the one with the entry, after memmove. */
  lemma CutNext(disk: seq<Block>, f: File, at: nat, i: nat)
    requires FileOk(disk, f) && at / BLKSIZE < i < f.blocks
    ensures ShiftedTo(disk, f, at, i, BLKSIZE - ENTRY, Moved(disk[f.addrs[i]], 0, ENTRY, BLKSIZE - ENTRY))
    ensures i == f.blocks - 1 ==>
              ShiftedTo(disk, f, at, i, BLKSIZE, Moved(disk[f.addrs[i]], 0, ENTRY, BLKSIZE - ENTRY))
  {
    hide Shifted;
    var b := disk[f.addrs[i]];
    var moved := Moved(b, 0, ENTRY, BLKSIZE - ENTRY);
    forall y | 0 <= y < BLKSIZE && (y < BLKSIZE - ENTRY || i == f.blocks - 1)
      ensures moved[y] == Shifted(disk, f, at, i * BLKSIZE + y)
    {
      ShiftInBlock(disk, f, at, i, y);
      MovedAt(b, 0, ENTRY, BLKSIZE - ENTRY, y);
    }
  }

  /** The contents with one entry cut out. */
  function Cut(s: seq<Byte>, at: nat): (t: seq<Byte>)
    requires at + ENTRY <= |s|
    ensures |t| == |s| - ENTRY
  {
    s[..at] + s[at + ENTRY..]
  }

  lemma CompactingEnds(disk0: seq<Block>, f: File, at: nat, disk: seq<Block>, g: File)
    requires Compacting(disk0, f, at, f.blocks, disk) && at + ENTRY <= f.size
    requires FileOk(disk, g) && g.size == f.size - ENTRY && g.addrs == f.addrs
    ensures Contents(disk, g) == Cut(Contents(disk0, f), at)
  {
    hide Shifted, Cell;
    var c, d := Contents(disk, g), Cut(Contents(disk0, f), at);
    forall x | 0 <= x < g.size
      ensures c[x] == d[x]
    {
      CompactedCell(disk0, f, at, disk, x);
    }
  }

  lemma CompactedCell(disk0: seq<Block>, f: File, at: nat, disk: seq<Block>, x: nat)
    requires Compacting(disk0, f, at, f.blocks, disk) && x + ENTRY < f.blocks * BLKSIZE
    ensures Cell(disk, f.addrs, x) == Cell(disk0, f.addrs, if x < at then x else x + ENTRY)
  {
    hide ShiftedTo;
    assert ShiftedTo(disk0, f, at, x / BLKSIZE, BLKSIZE, disk[f.addrs[x / BLKSIZE]]);
    ShiftedCell(disk0, f, at, x / BLKSIZE, disk[f.addrs[x / BLKSIZE]], x % BLKSIZE);
  }

  lemma ShiftedCell(disk: seq<Block>, f: File, at: nat, j: nat, b: Block, y: nat)
    requires FileOk(disk, f) && j < f.blocks && ShiftedTo(disk, f, at, j, BLKSIZE, b) && y < BLKSIZE
    ensures b[y] == Shifted(disk, f, at, j * BLKSIZE + y)
  {
  }

  // ---- entries ----

  /** Entry `i` of a directory. */
  function EntryAt(s: seq<Byte>, i: nat): (e: seq<Byte>)
    requires (i + 1) * ENTRY <= |s|
    ensures |e| == ENTRY
  {
    s[i * ENTRY..(i + 1) * ENTRY]
  }

  /** Cutting entry `d` out leaves the entries before it and moves the others up by one. */
  lemma CutEntries(s: seq<Byte>, d: nat, i: nat)
    requires (d + 1) * ENTRY <= |s| && (i + 2) * ENTRY <= |s|
    ensures EntryAt(Cut(s, d * ENTRY), i) == EntryAt(s, if i < d then i else i + 1)
  {
    hide Cut;
    var t, e := EntryAt(Cut(s, d * ENTRY), i), EntryAt(s, if i < d then i else i + 1);
    forall y | 0 <= y < ENTRY
      ensures t[y] == e[y]
    {
      CutAt(s, d * ENTRY, i * ENTRY + y);
    }
  }

  lemma CutAt(s: seq<Byte>, at: nat, x: nat)
    requires at + ENTRY <= |s| && x + ENTRY < |s|
    ensures Cut(s, at)[x] == s[if x < at then x else x + ENTRY]
  {
  }

  /** The four bytes of an inode number, little endian. */
  function InumBytes(inum: nat): (s: seq<Byte>)
    requires inum < 0x1_0000_0000
    ensures |s| == 4
  {
    [(inum % 0x100) as Byte, (inum / 0x100 % 0x100) as Byte, (inum / 0x1_0000 % 0x100) as Byte,
        (inum / 0x100_0000) as Byte]
  }

  function InumOf(e: seq<Byte>): nat
    requires |e| == ENTRY
  {
    e[0] as nat + 0x100 * e[1] as nat + 0x1_0000 * e[2] as nat + 0x100_0000 * e[3] as nat
  }

  /** The name of an entry. */
  function NameOf(e: seq<Byte>): seq<Byte>
    requires |e| == ENTRY
  {
    UpToNul(e[4..])
  }

  /** Writing an entry over any old bytes: the inode number, then the name and its terminator. */
  function Entry(was: seq<Byte>, inum: nat, name: seq<Byte>): (e: seq<Byte>)
    requires |was| == ENTRY && inum < 0x1_0000_0000 && |name| < ENTRY - 4
    ensures |e| == ENTRY
  {
    InumBytes(inum) + name + [0] + was[4 + |name| + 1..]
  }

  /** What is written is what a later lookup reads. */
  lemma EntryReads(was: seq<Byte>, inum: nat, name: seq<Byte>)
    requires |was| == ENTRY && inum < 0x1_0000_0000 && |name| < ENTRY - 4 && 0 !in name
    ensures InumOf(Entry(was, inum, name)) == inum && NameOf(Entry(was, inum, name)) == name
  {
    hide InumBytes, UpToNul;
    var e := Entry(was, inum, name);
    InumReads(inum);
    assert e[0] == InumBytes(inum)[0] && e[1] == InumBytes(inum)[1] && e[2] == InumBytes(inum)[2]
        && e[3] == InumBytes(inum)[3];
    assert e[4..] == name + [0] + was[4 + |name| + 1..];
    UpToNulUnique(e[4..], name);
  }

  lemma InumReads(inum: nat)
    requires inum < 0x1_0000_0000
    ensures var b := InumBytes(inum);
            b[0] as nat + 0x100 * b[1] as nat + 0x1_0000 * b[2] as nat + 0x100_0000 * b[3] as nat == inum
  {
    var a, b, c := inum / 0x100, inum / 0x1_0000, inum / 0x100_0000;
    assert b == a / 0x100 && c == b / 0x100;
  }

  /** A directory has the blocks its entries fill, and at least one. */
  ghost predicate DirOk(disk: seq<Block>, f: File) {
    FileOk(disk, f) && f.size % ENTRY == 0 && f.blocks == BlocksFor(f.size)
  }

  function BlocksFor(size: nat): nat {
    if size == 0 then 1 else (size + BLKSIZE - 1) / BLKSIZE
  }

  /** The second half of rfs_unlink: cut entry `d` out of the directory, block by block. */
  method CutEntry(v: Volume, dir: Vinode, d: nat)
    requires v.Valid() && FileOk(v.disk[..], dir.View()) && (d + 1) * ENTRY <= dir.size
    modifies v`io, v.disk
    ensures Compacting(old(v.disk[..]), dir.View(), d * ENTRY, dir.blocks, v.disk[..])
  {
    hide Compacting, ShiftedTo, Moved;
    ghost var disk0, f, at := v.disk[..], dir.View(), d * ENTRY;
    var k := d / (BLKSIZE / ENTRY);
    CompactingStarts(disk0, f, at);
    CutFirst(disk0, f, at);
    var _ := v.ReadBlock(dir.addrs[k]);
    var o := d % (BLKSIZE / ENTRY) * ENTRY;
    v.io := Moved(v.io, o, o + ENTRY, BLKSIZE - o - ENTRY);
    var previous := v.io;
    var i := k + 1;
    while i < dir.blocks
      invariant k < i <= dir.blocks && dir.View() == f
      invariant Compacting(disk0, f, at, i - 1, v.disk[..])
      invariant ShiftedTo(disk0, f, at, i - 1, if i == dir.blocks then BLKSIZE else BLKSIZE - ENTRY, previous)
    {
      previous := CutBlock(v, dir, i, previous, disk0, at);
      i := i + 1;
    }
    v.io := previous;
    CompactingWrite(disk0, f, at, i - 1, v.disk[..], previous);
    var _ := v.WriteBlock(dir.addrs[dir.blocks - 1]);
  }

  /** One round of the compaction loop. */
  method CutBlock(v: Volume, dir: Vinode, i: nat, block: Block, ghost disk0: seq<Block>, ghost at: nat)
    returns (next: Block)
    requires at / BLKSIZE < i < dir.blocks && at % ENTRY == 0 && Compacting(disk0, dir.View(), at, i - 1, v.disk[..])
    requires ShiftedTo(disk0, dir.View(), at, i - 1, BLKSIZE - ENTRY, block)
    modifies v`io, v.disk
    ensures Compacting(disk0, dir.View(), at, i, v.disk[..])
    ensures ShiftedTo(disk0, dir.View(), at, i, if i + 1 == dir.blocks then BLKSIZE else BLKSIZE - ENTRY, next)
  {
    hide ShiftedTo, Moved;
    ghost var f := dir.View();
    NotYet(disk0, f, at, i, v.disk[..]);
    CutNext(disk0, f, at, i);
    FillLast(disk0, f, at, i - 1, block);
    var _ := v.ReadBlock(dir.addrs[i]);
    next := v.io;
    var previous: Block := block[..BLKSIZE - ENTRY] + v.io[..ENTRY];
    next := Moved(next, 0, ENTRY, BLKSIZE - ENTRY);
    v.io := previous;
    CompactingWrite(disk0, f, at, i - 1, v.disk[..], previous);
    hide Compacting;
    var _ := v.WriteBlock(dir.addrs[i - 1]);
  }

  lemma NotYet(disk0: seq<Block>, f: File, at: nat, i: nat, disk: seq<Block>)
    requires 0 < i < f.blocks && Compacting(disk0, f, at, i - 1, disk)
    ensures disk[f.addrs[i]] == disk0[f.addrs[i]]
  {
  }

  lemma Compacted(disk0: seq<Block>, f: File, at: nat, disk: seq<Block>)
    requires Compacting(disk0, f, at, f.blocks, disk)
    ensures |disk| == |disk0| && AddrsOk(disk, f.addrs, f.blocks)
    ensures forall n: nat :: n <= f.blocks ==> AddrsOk(disk, f.addrs, n)
    ensures forall b :: 0 <= b < |disk| && b !in f.addrs[..f.blocks] ==> disk[b] == disk0[b]
  {
  }

  /** How the number of blocks follows the number of entries. */
  lemma Shrunk(disk: seq<Block>, f: File)
    requires DirOk(disk, f) && ENTRY <= f.size
    ensures 0 < f.blocks <= DIRECT == |f.addrs|
    ensures (f.size / ENTRY - 1) % (BLKSIZE / ENTRY) == 0 <==> (f.size - ENTRY) % BLKSIZE == 0
    ensures BlocksFor(f.size - ENTRY) ==
              if (f.size - ENTRY) % BLKSIZE == 0 && f.blocks > 1 then f.blocks - 1 else f.blocks
    ensures f.size - ENTRY <= BlocksFor(f.size - ENTRY) * BLKSIZE && (f.size - ENTRY) % ENTRY == 0
  {
  }

  /** rfs_unlink on the directory: entry `d` is gone, the order of the others is kept across blocks, and
      the last block is freed exactly when it has become empty and is not the only one. */
  method RemoveEntry(v: Volume, dir: Vinode, d: nat)
    requires v.Valid() && DirOk(v.disk[..], dir.View()) && Owned(v.freemap[..], dir.addrs, dir.blocks)
    requires (d + 1) * ENTRY <= dir.size
    modifies v`io, v.disk, v.freemap, dir
    ensures DirOk(v.disk[..], dir.View()) && dir.addrs == old(dir.addrs)
    ensures Contents(v.disk[..], dir.View()) == Cut(old(Contents(v.disk[..], dir.View())), d * ENTRY)
    ensures var full := (old(dir.size) - ENTRY) % BLKSIZE == 0;
            dir.blocks == if full && old(dir.blocks) > 1 then old(dir.blocks) - 1 else old(dir.blocks)
    ensures v.freemap[..] == if dir.blocks == old(dir.blocks) then old(v.freemap[..])
                             else old(v.freemap[..])[dir.addrs[dir.blocks] - FREE_OFFSET := 0]
    ensures forall b :: 0 <= b < v.disk.Length && b !in old(dir.addrs[..dir.blocks]) ==> v.disk[b] == old(v.disk[..])[b]
  {
    hide Cut, Contents, Compacting, AddrsOk;
    ghost var disk0, f := v.disk[..], dir.View();
    Shrunk(disk0, f);
    var last := dir.blocks - 1;
    assert Marked(v.freemap[..], dir.addrs[last], true);
    CutEntry(v, dir, d);
    Compacted(disk0, f, d * ENTRY, v.disk[..]);
    if (dir.size / ENTRY - 1) % (BLKSIZE / ENTRY) == 0 && dir.blocks > 1 {
      v.FreeBlock(dir.addrs[last]);
      dir.blocks := last;
    }
    dir.size := dir.size - ENTRY;
    CompactingEnds(disk0, f, d * ENTRY, v.disk[..], dir.View());
  }

  /** rfs_add_direntry: the entry goes behind the others. The source never gives a directory a further
      block, so there must be room in the last one. */
  method AddEntry(v: Volume, dir: Vinode, name: seq<Byte>, inum: nat)
    requires v.Valid() && DirOk(v.disk[..], dir.View()) && dir.size < dir.blocks * BLKSIZE
    requires 0 !in name && |name| < ENTRY - 4 && inum < 0x1_0000_0000
    modifies v`io, v.disk, dir
    ensures DirOk(v.disk[..], dir.View()) && dir.addrs == old(dir.addrs) && dir.blocks == old(dir.blocks)
    ensures exists was ::
              |was| == ENTRY
              && Contents(v.disk[..], dir.View()) == old(Contents(v.disk[..], dir.View())) + Entry(was, inum, name)
    ensures forall b :: 0 <= b < v.disk.Length && b != dir.addrs[old(dir.size) / BLKSIZE] ==>
        v.disk[b] == old(v.disk[..])[b]
  {
    ghost var disk0, f := v.disk[..], dir.View();
    var k, o := dir.size / BLKSIZE, dir.size % BLKSIZE;
    var _ := v.ReadBlock(dir.addrs[k]);
    var was := v.io[o..o + ENTRY];
    var entry := Entry(was, inum, name);
    v.io := v.io[..o] + entry + v.io[o + ENTRY..];
    AppendEntry(disk0, f, entry, v.io);
    var _ := v.WriteBlock(dir.addrs[k]);
    dir.size := dir.size + ENTRY;
  }

  lemma AppendEntry(disk: seq<Block>, f: File, entry: seq<Byte>, content: Block)
    requires DirOk(disk, f) && f.size < f.blocks * BLKSIZE && |entry| == ENTRY
    requires var b, o := disk[f.addrs[f.size / BLKSIZE]], f.size % BLKSIZE;
             o + ENTRY <= BLKSIZE && content == b[..o] + entry + b[o + ENTRY..]
    ensures var g, disk' := f.(size := f.size + ENTRY), disk[f.addrs[f.size / BLKSIZE] := content];
            DirOk(disk', g) && Contents(disk', g) == Contents(disk, f) + entry
  {
    var k, o := f.size / BLKSIZE, f.size % BLKSIZE;
    var g, disk' := f.(size := f.size + ENTRY), disk[f.addrs[k] := content];
    assert Progress(disk, f, disk, f.addrs, f.blocks, f.size, entry, 0);
    ProgressPatch(disk, f, disk, f.addrs, f.blocks, f.size, entry, 0, k, o, ENTRY, content);
    ProgressDone(disk, f, disk', g, f.size, entry);
  }

  // ---- a full directory ----

  /** An entry more leaves a directory in order exactly if there was room for it in the last block. */
  lemma RoomIsExact(disk: seq<Block>, f: File)
    requires DirOk(disk, f)
    ensures f.size < f.blocks * BLKSIZE <==> DirOk(disk, f.(size := f.size + ENTRY))
  {
  }

  /** What the source makes of a directory with one entry too many, stored behind its last block: when
      another entry but the last of that block is unlinked, the compaction visits the directory's blocks
      only. Their last entry then stands there twice, and the entry behind them is not in them. */
  lemma OverfullUnlink(disk0: seq<Block>, f: File, d: nat, disk: seq<Block>)
    requires DirOk(disk0, f) && f.size == f.blocks * BLKSIZE && (d + 1) * ENTRY < f.size
    requires Compacting(disk0, f, d * ENTRY, f.blocks, disk)
    ensures FileOk(disk, f)
    ensures var last := f.size / ENTRY - 1;
            && EntryAt(Contents(disk, f), last) == EntryAt(Contents(disk, f), last - 1)
            && EntryAt(Contents(disk, f), last) == EntryAt(Contents(disk0, f), last)
  {
    hide Cell;
    Compacted(disk0, f, d * ENTRY, disk);
    var c0, c, last := Contents(disk0, f), Contents(disk, f), f.size / ENTRY - 1;
    var e0, e, e' := EntryAt(c0, last), EntryAt(c, last), EntryAt(c, last - 1);
    forall y | 0 <= y < ENTRY
      ensures e[y] == e0[y] && e'[y] == e0[y]
    {
      CellShifted(disk0, f, d * ENTRY, disk, last * ENTRY + y);
      CellShifted(disk0, f, d * ENTRY, disk, (last - 1) * ENTRY + y);
    }
  }

  lemma CellShifted(disk0: seq<Block>, f: File, at: nat, disk: seq<Block>, x: nat)
    requires Compacting(disk0, f, at, f.blocks, disk) && x < f.blocks * BLKSIZE && AddrsOk(disk, f.addrs, f.blocks)
    ensures Cell(disk, f.addrs, x) == Shifted(disk0, f, at, x)
  {
    hide ShiftedTo, Shifted;
    assert ShiftedTo(disk0, f, at, x / BLKSIZE, BLKSIZE, disk[f.addrs[x / BLKSIZE]]);
    ShiftedCell(disk0, f, at, x / BLKSIZE, disk[f.addrs[x / BLKSIZE]], x % BLKSIZE);
  }

  /** Every entry has its name terminated. */
  ghost predicate NamesEnd(s: seq<Byte>) {
    forall i :: 0 <= i < |s| / ENTRY ==> 0 in EntryAt(s, i)[4..]
  }

  /** Where entry `d` begins in its block. */
  function Offset(d: nat): (o: nat)
    ensures o + ENTRY <= BLKSIZE
  {
    d % (BLKSIZE / ENTRY) * ENTRY
  }

  /** The search loop of rfs_lookup and rfs_unlink: the first entry with the name, then in the block
      buffer, or none. */
  method FindEntry(v: Volume, dir: Vinode, name: seq<Byte>) returns (d: nat)
    requires DirOk(v.disk[..], dir.View()) && NamesEnd(Contents(v.disk[..], dir.View())) && 0 !in name
    modifies v`io
    ensures d <= dir.size / ENTRY
    ensures var s := Contents(v.disk[..], dir.View());
            && (forall i :: 0 <= i < d ==> NameOf(EntryAt(s, i)) != name)
            && (d < dir.size / ENTRY ==>
                  NameOf(EntryAt(s, d)) == name && v.io[Offset(d)..Offset(d) + ENTRY] == EntryAt(s, d))
  {
    hide NameOf, Contents, EntryAt;
    ghost var s := Contents(v.disk[..], dir.View());
    var total, each := dir.size / ENTRY, BLKSIZE / ENTRY;
    d := 0;
    while d < total
      invariant d <= total
      invariant 0 < d % each ==> v.io == v.disk[dir.addrs[d / each]]
      invariant forall i :: 0 <= i < d ==> NameOf(EntryAt(s, i)) != name
    {
      EntryInBlock(v.disk[..], dir.View(), d);
      if d % each == 0 {
        var _ := v.ReadBlock(dir.addrs[d / each]);
      }
      var o := Offset(d);
      var found := HasName(v.io[o..o + ENTRY], name);
      if found {
        return;
      }
      d := d + 1;
    }
  }

  method HasName(entry: seq<Byte>, name: seq<Byte>) returns (found: bool)
    requires |entry| == ENTRY && 0 in entry[4..] && 0 !in name
    ensures found <==> NameOf(entry) == name
  {
    var order := StrCmp(entry[4..], name + [0]);
    UpToNulUnique(name + [0], name);
    found := order == 0;
  }

  lemma EntryInBlock(disk: seq<Block>, f: File, d: nat)
    requires DirOk(disk, f) && (d + 1) * ENTRY <= f.size
    ensures var k, o := d / (BLKSIZE / ENTRY), d % (BLKSIZE / ENTRY) * ENTRY;
            k < f.blocks <= |f.addrs| && 0 <= f.addrs[k] < |disk| && o + ENTRY <= BLKSIZE
                && disk[f.addrs[k]][o..o + ENTRY] == EntryAt(Contents(disk, f), d)
  {
    hide Contents;
    EntryPlace(d);
    ReadFirst(disk, f, d * ENTRY, ENTRY);
  }

  lemma EntryPlace(d: nat)
    ensures d * ENTRY / BLKSIZE == d / (BLKSIZE / ENTRY) && d * ENTRY % BLKSIZE == d % (BLKSIZE / ENTRY) * ENTRY
  {
    var k, o := d / (BLKSIZE / ENTRY), d % (BLKSIZE / ENTRY);
    assert d * ENTRY == k * BLKSIZE + o * ENTRY;
    Locate(k, o * ENTRY);
  }
}
