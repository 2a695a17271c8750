/** The RFS read and write loops (kernel/rfs.c) over the RAM disk (kernel/ramdev.c), the shared block
    buffer and the free map. */
module RfsBlocks {
  import opened RfsFile

  /** Data blocks that the free map has as free. */
  function FreeCount(free: seq<int>): nat {
    if free == [] then 0 else (if free[0] == 0 then 1 else 0) + FreeCount(free[1..])
  }

  lemma {:induction false} FreeCountAfter(free: seq<int>, b: nat)
    requires b < |free| && free[b] == 0
    ensures FreeCount(free) == 1 + FreeCount(free[b := 1])
  {
    var free' := free[b := 1];
    if b == 0 {
      assert free'[1..] == free[1..];
    } else {
      FreeCountAfter(free[1..], b - 1);
      assert free'[1..] == free[1..][b - 1 := 1];
    }
  }

  lemma {:induction false} FreeCountZero(free: seq<int>)
    ensures FreeCount(free) == 0 <==> forall b :: 0 <= b < |free| ==> free[b] != 0
  {
    if free != [] {
      FreeCountZero(free[1..]);
      assert forall b :: 0 < b < |free| ==> free[b] == free[1..][b - 1];
    }
  }

  /** Block `b` of the disk is a data block with free-map entry `v`. */
  ghost predicate Marked(free: seq<int>, b: int, used: bool) {
    0 <= b - FREE_OFFSET < |free| && ((free[b - FREE_OFFSET] != 0) == used)
  }

  /** The blocks of a file are marked as used. */
  ghost predicate Owned(free: seq<int>, addrs: seq<int>, blocks: nat)
    requires blocks <= |addrs|
  {
    forall i :: 0 <= i < blocks ==> Marked(free, addrs[i], true)
  }

  /** How a write may change the disk: the file keeps its blocks and gets new ones that were free;
      the free map changes for the new ones only; the disk changes in the file's blocks only. */
  ghost predicate Grown(disk0: seq<Block>, free0: seq<int>, f: File, disk: seq<Block>, free: seq<int>,
                        addrs: seq<int>, blocks: nat)
  {
    && |disk| == |disk0| && |free| == |free0| && f.blocks <= blocks <= |addrs|
    && Owned(free, addrs, blocks)
    && (forall i :: f.blocks <= i < blocks ==> Marked(free0, addrs[i], false))
    && (forall b :: 0 <= b < |free| && free[b] != free0[b] ==>
        free[b] == 1 && b + FREE_OFFSET in addrs[f.blocks..blocks])
    && (forall b :: 0 <= b < |disk| && b !in addrs[..blocks] ==> disk[b] == disk0[b])
    && FreeCount(free) + (blocks - f.blocks) == FreeCount(free0)
  }

  lemma GrownByOne(disk0: seq<Block>, free0: seq<int>, f: File, disk: seq<Block>, free: seq<int>,
                   addrs: seq<int>, blocks: nat, b: nat)
    requires Grown(disk0, free0, f, disk, free, addrs, blocks)
    requires blocks < |addrs| && b < |free| && free[b] == 0
    ensures Grown(disk0, free0, f, disk, free[b := 1], addrs[blocks := b + FREE_OFFSET], blocks + 1)
    ensures forall i :: 0 <= i < blocks ==> addrs[i] != b + FREE_OFFSET
  {
    FreeCountAfter(free, b);
    var addrs', free' := addrs[blocks := b + FREE_OFFSET], free[b := 1];
    forall i | 0 <= i < blocks
      ensures addrs[i] != b + FREE_OFFSET
    {
      assert Marked(free, addrs[i], true);
    }
    assert free0[b] == 0;
    assert addrs'[..blocks] == addrs[..blocks];
    assert addrs'[f.blocks..blocks + 1] == addrs[f.blocks..blocks] + [b + FREE_OFFSET];
    assert addrs'[..blocks + 1] == addrs[..blocks] + [b + FREE_OFFSET];
    forall i | 0 <= i < blocks + 1
      ensures Marked(free', addrs'[i], true)
      ensures f.blocks <= i ==> Marked(free0, addrs'[i], false)
    {
      assert i < blocks ==> Marked(free, addrs[i], true);
    }
  }

  lemma GrownPatch(disk0: seq<Block>, free0: seq<int>, f: File, disk: seq<Block>, free: seq<int>,
                   addrs: seq<int>, blocks: nat, k: nat, content: Block)
    requires Grown(disk0, free0, f, disk, free, addrs, blocks) && k < blocks && 0 <= addrs[k] < |disk|
    ensures Grown(disk0, free0, f, disk[addrs[k] := content], free, addrs, blocks)
  {
    assert addrs[..blocks][k] == addrs[k];
  }

  /** How many new blocks a write needs. */
  function Needed(blocks: nat, offset: nat, len: nat): nat {
    var upto := (offset + len + BLKSIZE - 1) / BLKSIZE;
    if blocks < upto then upto - blocks else 0
  }

  class Vinode {
    var addrs: seq<int>
    var blocks: nat
    var size: nat

    constructor (addrs: seq<int>, blocks: nat, size: nat)
      ensures this.addrs == addrs && this.blocks == blocks && this.size == size
    {
      this.addrs, this.blocks, this.size := addrs, blocks, size;
    }

    ghost function View(): File
      reads this
    {
      File(addrs, blocks, size)
    }
  }

  class Volume {
    const disk: array<Block>
    var io: Block
    const freemap: array<int>

    ghost predicate Valid() {
      FREE_OFFSET + freemap.Length <= disk.Length
    }

    constructor (blocks: nat, nblocks: nat)
      requires FREE_OFFSET + nblocks <= blocks
      ensures Valid() && disk.Length == blocks && freemap.Length == nblocks && fresh(disk) && fresh(freemap)
      ensures forall b :: 0 <= b < nblocks ==> freemap[b] == 0
    {
      disk := new Block[blocks](i => seq(BLKSIZE, j => 0));
      freemap := new int[nblocks](i => 0);
      io := seq(BLKSIZE, i => 0);
    }

    /** ramdisk_read */
    method ReadBlock(n: int) returns (ok: bool)
      modifies this`io
      ensures ok == (0 <= n < disk.Length)
      ensures io == if ok then disk[n] else old(io)
    {
      if n < 0 || n >= disk.Length {
        return false;
      }
      io := disk[n];
      ok := true;
    }

    /** ramdisk_write */
    method WriteBlock(n: int) returns (ok: bool)
      modifies disk
      ensures ok == (0 <= n < disk.Length)
      ensures disk[..] == if ok then old(disk[..])[n := io] else old(disk[..])
    {
      if n < 0 || n >= disk.Length {
        return false;
      }
      disk[n] := io;
      ok := true;
    }

    /** rfs_alloc_block: the lowest free data block, or a panic. */
    method AllocBlock() returns (ok: bool, b: nat)
      modifies freemap
      ensures ok <==> FreeCount(old(freemap[..])) != 0
      ensures ok ==> b < freemap.Length && old(freemap[..])[b] == 0 && freemap[..] == old(freemap[..])[b := 1]
      ensures ok ==> forall c :: 0 <= c < b ==> old(freemap[..])[c] != 0
    {
      FreeCountZero(freemap[..]);
      ok, b := false, 0;
      while b < freemap.Length
        invariant b <= freemap.Length && freemap[..] == old(freemap[..])
        invariant forall c :: 0 <= c < b ==> freemap[c] != 0
      {
        if freemap[b] == 0 {
          freemap[b] := 1;
          return true, b;
        }
        b := b + 1;
      }
    }

    /** rfs_free_block */
    method FreeBlock(n: int)
      requires 0 <= n - FREE_OFFSET < freemap.Length
      modifies freemap
      ensures freemap[..] == old(freemap[..])[n - FREE_OFFSET := 0]
    {
      freemap[n - FREE_OFFSET] := 0;
    }

    /** A write in progress. */
    ghost predicate Writing(disk0: seq<Block>, free0: seq<int>, f: File, vi: Vinode, offset: nat, buf: seq<Byte>,
                            n: nat)
      reads this, disk, freemap, vi
    {
      && Valid() && vi.size == f.size
      && Progress(disk0, f, disk[..], vi.addrs, vi.blocks, offset, buf, n)
      && Grown(disk0, free0, f, disk[..], freemap[..], vi.addrs, vi.blocks)
    }

    /** Before block `k` is written: a new block if the file ends there. */
    method NeedBlock(vi: Vinode, k: nat, ghost disk0: seq<Block>, ghost free0: seq<int>, ghost f: File,
                     ghost offset: nat, ghost buf: seq<Byte>, ghost n: nat) returns (ok: bool)
      requires Writing(disk0, free0, f, vi, offset, buf, n)
      requires k <= vi.blocks && k < DIRECT && offset + n == k * BLKSIZE
      modifies freemap, vi
      ensures ok <==> k < old(vi.blocks) || FreeCount(old(freemap[..])) != 0
      ensures ok ==> Writing(disk0, free0, f, vi, offset, buf, n)
      ensures ok ==> vi.blocks == (if k < old(vi.blocks) then old(vi.blocks) else k + 1)
      ensures ok ==> vi.addrs[..k] == old(vi.addrs)[..k]
    {
      hide Progress, Grown, FreeCount;
      assert |vi.addrs| == DIRECT by { ProgressAddrs(disk0, f, disk[..], vi.addrs, vi.blocks, offset, buf, n); }
      if k == vi.blocks {
        ghost var free := freemap[..];
        var b;
        ok, b := AllocBlock();
        if !ok {
          return;
        }
        GrownByOne(disk0, free0, f, disk[..], free, vi.addrs, vi.blocks, b);
        ProgressGrow(disk0, f, disk[..], vi.addrs, vi.blocks, offset, buf, n, b + FREE_OFFSET);
        vi.addrs := vi.addrs[k := b + FREE_OFFSET];
        vi.blocks := vi.blocks + 1;
      } else {
        ok := true;
      }
    }

    /** One full block of the buffer. */
    method FullBlock(vi: Vinode, k: nat, buf: seq<Byte>, n: nat, ghost disk0: seq<Block>, ghost free0: seq<int>,
                     ghost f: File, ghost offset: nat) returns (ok: bool)
      requires Writing(disk0, free0, f, vi, offset, buf, n)
      requires k <= vi.blocks && k < DIRECT && offset + n == k * BLKSIZE && n + BLKSIZE <= |buf|
      modifies this`io, disk, freemap, vi
      ensures ok <==> k < old(vi.blocks) || FreeCount(old(freemap[..])) != 0
      ensures ok ==> Writing(disk0, free0, f, vi, offset, buf, n + BLKSIZE)
      ensures ok ==> vi.blocks == (if k < old(vi.blocks) then old(vi.blocks) else k + 1)
      ensures ok ==> InBuffer(vi, k)
    {
      hide Progress, Grown, FreeCount;
      ok := NeedBlock(vi, k, disk0, free0, f, offset, buf, n);
      if !ok {
        return;
      }
      ProgressAddrs(disk0, f, disk[..], vi.addrs, vi.blocks, offset, buf, n);
      io := buf[n..n + BLKSIZE];
      GrownPatch(disk0, free0, f, disk[..], freemap[..], vi.addrs, vi.blocks, k, io);
      ProgressPatch(disk0, f, disk[..], vi.addrs, vi.blocks, offset, buf, n, k, 0, BLKSIZE, io);
      ok := WriteBlock(vi.addrs[k]);
    }

    /** The block buffer holds block `k` of the file. */
    ghost predicate InBuffer(vi: Vinode, k: int)
      reads this, disk, vi
    {
      0 <= k < |vi.addrs| && 0 <= vi.addrs[k] < disk.Length && io == disk[vi.addrs[k]]
    }

    /** The first block, when the write does not begin at its start. */
    method FirstBlock(vi: Vinode, buf: seq<Byte>, m: nat, ghost disk0: seq<Block>, ghost free0: seq<int>,
                      ghost f: File, offset: nat)
      requires Writing(disk0, free0, f, vi, offset, buf, 0)
      requires offset % BLKSIZE != 0 && offset <= vi.size
      requires m <= |buf| && offset % BLKSIZE + m <= BLKSIZE
      modifies this`io, disk
      ensures Writing(disk0, free0, f, vi, offset, buf, m)
      ensures InBuffer(vi, offset / BLKSIZE)
    {
      hide Grown, FreeCount;
      var align, k := offset % BLKSIZE, offset / BLKSIZE;
      assert k < vi.blocks;
      var _ := ReadBlock(vi.addrs[k]);
      io := io[..align] + buf[..m] + io[align + m..];
      GrownPatch(disk0, free0, f, disk[..], freemap[..], vi.addrs, vi.blocks, k, io);
      ProgressPatch(disk0, f, disk[..], vi.addrs, vi.blocks, offset, buf, 0, k, align, m, io);
      hide Progress;
      var _ := WriteBlock(vi.addrs[k]);
    }

    /** The rest of the buffer, into the front of block `k`; behind it, what the block buffer held. */
    method LastBlock(vi: Vinode, k: nat, buf: seq<Byte>, n: nat, ghost io0: Block, ghost disk0: seq<Block>,
                     ghost free0: seq<int>, ghost f: File, ghost offset: nat) returns (ok: bool)
      requires Writing(disk0, free0, f, vi, offset, buf, n)
      requires k <= vi.blocks && k < DIRECT && offset + n == k * BLKSIZE && n < |buf| < n + BLKSIZE && offset <= f.size
      requires if offset / BLKSIZE == k then io == io0 else InBuffer(vi, k - 1)
      modifies this`io, disk, freemap, vi
      ensures ok <==> k < old(vi.blocks) || FreeCount(old(freemap[..])) != 0
      ensures ok ==> var full := buf + Tail(io0, Contents(disk0, f), offset, buf);
                     Writing(disk0, free0, f, vi, offset, full, |full|)
      ensures ok ==> vi.blocks == (if k < old(vi.blocks) then old(vi.blocks) else k + 1)
    {
      hide Progress, Grown, FreeCount;
      ok := NeedBlock(vi, k, disk0, free0, f, offset, buf, n);
      if !ok {
        return;
      }
      ProgressAddrs(disk0, f, disk[..], vi.addrs, vi.blocks, offset, buf, n);
      ghost var tail := Tail(io0, Contents(disk0, f), offset, buf);
      TailInBuffer(disk0, f, disk[..], vi.addrs, vi.blocks, offset, buf, n, k, io0, io);
      var remain := |buf| - n;
      io := buf[n..] + io[remain..];
      GrownPatch(disk0, free0, f, disk[..], freemap[..], vi.addrs, vi.blocks, k, io);
      LastPatch(disk0, f, disk[..], vi.addrs, vi.blocks, offset, buf, n, k, tail, io);
      ok := WriteBlock(vi.addrs[k]);
    }

    /** The full blocks, then the rest. */
    method Blocks(vi: Vinode, buf: seq<Byte>, n0: nat, k0: nat, times0: nat, remain: nat, ghost io0: Block,
                  ghost disk0: seq<Block>, ghost free0: seq<int>, ghost f: File, ghost offset: nat) returns (ok: bool)
      requires Writing(disk0, free0, f, vi, offset, buf, n0)
      requires n0 + times0 * BLKSIZE + remain == |buf| && remain < BLKSIZE && offset + n0 == k0 * BLKSIZE
      requires k0 <= vi.blocks == f.blocks && offset <= f.size && offset + |buf| <= DIRECT * BLKSIZE
      requires offset / BLKSIZE <= k0 && if offset / BLKSIZE == k0 then io == io0 else InBuffer(vi, k0 - 1)
      modifies this`io, disk, freemap, vi
      ensures ok <==> Needed(f.blocks, offset, |buf|) <= FreeCount(free0)
      ensures ok ==> var full := buf + Tail(io0, Contents(disk0, f), offset, buf);
                     Writing(disk0, free0, f, vi, offset, full, |full|)
      ensures ok ==> vi.blocks == f.blocks + Needed(f.blocks, offset, |buf|)
    {
      hide Progress, Grown, FreeCount, Tail;
      var n, k, times := n0, k0, times0;
      while times != 0
        invariant 0 <= times && n + times * BLKSIZE + remain == |buf| && offset + n == k * BLKSIZE
        invariant k <= vi.blocks == if f.blocks < k then k else f.blocks
        invariant Writing(disk0, free0, f, vi, offset, buf, n)
        invariant offset / BLKSIZE <= k && if offset / BLKSIZE == k then io == io0 else InBuffer(vi, k - 1)
      {
        FreeLeft(disk0, free0, f, disk[..], freemap[..], vi.addrs, vi.blocks);
        NeededBeyond(f.blocks, offset, |buf|, k);
        ok := FullBlock(vi, k, buf, n, disk0, free0, f, offset);
        if !ok {
          return;
        }
        n, k, times := n + BLKSIZE, k + 1, times - 1;
      }
      FreeLeft(disk0, free0, f, disk[..], freemap[..], vi.addrs, vi.blocks);
      if remain > 0 {
        NeededBeyond(f.blocks, offset, |buf|, k);
        ok := LastBlock(vi, k, buf, n, io0, disk0, free0, f, offset);
        if ok {
          FreeLeft(disk0, free0, f, disk[..], freemap[..], vi.addrs, vi.blocks);
        }
      } else {
        ok := true;
        ProgressAddrs(disk0, f, disk[..], vi.addrs, vi.blocks, offset, buf, n);
        assert buf + Tail(io0, Contents(disk0, f), offset, buf) == buf;
      }
    }

    /** rfs_write. It panics exactly when the offset is past the end of the file or the free blocks do
        not suffice; otherwise the file holds `Written`, and nothing outside the file has changed. */
    method Write(vi: Vinode, buf: seq<Byte>, offset: nat) returns (ok: bool, offset': nat)
      requires Valid() && FileOk(disk[..], vi.View()) && Owned(freemap[..], vi.addrs, vi.blocks)
      requires offset + |buf| <= DIRECT * BLKSIZE
      modifies this`io, disk, freemap, vi
      ensures ok <==> offset <= old(vi.size) && Needed(old(vi.blocks), offset, |buf|) <= FreeCount(old(freemap[..]))
      ensures ok ==> FileOk(disk[..], vi.View()) && offset' == offset + |buf|
      ensures ok ==>
                Contents(disk[..], vi.View()) == Written(old(io), Contents(old(disk[..]), old(vi.View())), offset, buf)
      ensures ok ==> Grown(old(disk[..]), old(freemap[..]), old(vi.View()), disk[..], freemap[..], vi.addrs, vi.blocks)
      ensures ok ==> vi.addrs[..old(vi.blocks)] == old(vi.addrs[..vi.blocks])
      ensures ok ==> vi.blocks == old(vi.blocks) + Needed(old(vi.blocks), offset, |buf|)
    {
      hide Progress, Grown, FreeCount, Overlay, Tail;
      if vi.size < offset {
        return false, offset;
      }
      ghost var io0, disk0, free0, f := io, disk[..], freemap[..], vi.View();
      ghost var full := buf + Tail(io0, Contents(disk0, f), offset, buf);
      WriteBegins(disk0, free0, f, offset, buf);
      var align := offset % BLKSIZE;
      var times: int, remain := (|buf| + align) / BLKSIZE, (|buf| + align) % BLKSIZE;
      var n, k := 0, offset / BLKSIZE;
      if align != 0 {
        n := if times == 0 then |buf| else BLKSIZE - align;
        FirstBlock(vi, buf, n, disk0, free0, f, offset);
        k := k + 1;
        times := times - 1;
      }
      ok := true;
      if times >= 0 {
        ok := Blocks(vi, buf, n, k, times, remain, io0, disk0, free0, f, offset);
      } else {
        assert full == buf;
      }
      if ok {
        WriteEnds(disk0, f, disk[..], vi.addrs, vi.blocks, offset, buf, io0);
        if vi.size < offset + |buf| {
          vi.size := offset + |buf|;
        }
      }
      offset' := offset + |buf|;
    }

    /** rfs_read. It panics exactly when the offset is past the end of the file, or is the end of the
        file, at a block boundary, and the address after the last one is no block of the disk. */
    method Read(vi: Vinode, len: nat, offset: nat) returns (ok: bool, text: seq<Byte>, offset': nat)
      requires FileOk(disk[..], vi.View()) && offset < DIRECT * BLKSIZE
      modifies this`io
      ensures ok <==>
                offset <= vi.size
                && (offset / BLKSIZE < vi.blocks || 0 <= vi.addrs[offset / BLKSIZE] < disk.Length)
      ensures ok ==> text == ReadOf(Contents(disk[..], vi.View()), offset, len)
      ensures ok ==> Reads(Contents(disk[..], vi.View()), offset, len, text)
      ensures ok ==> offset' == if vi.size < offset + len then vi.size else offset + len
    {
      hide UpToNul, Contents;
      ok, text, offset' := false, [], offset;
      if vi.size < offset {
        return;
      }
      var n := if vi.size < offset + len then vi.size - offset else len;
      var buffer;
      ok, buffer := Gather(vi, n, offset);
      if ok {
        text := CopyString(buffer);
        offset' := offset + n;
        ReadIsExpected(Contents(disk[..], vi.View()), offset, len);
      }
    }

    /** The bytes of a read, block by block. */
    method Gather(vi: Vinode, n: nat, offset: nat) returns (ok: bool, buffer: seq<Byte>)
      requires FileOk(disk[..], vi.View()) && offset < DIRECT * BLKSIZE && offset + n <= vi.size
      modifies this`io
      ensures ok <==> offset / BLKSIZE < vi.blocks || 0 <= vi.addrs[offset / BLKSIZE] < disk.Length
      ensures ok ==> buffer == Contents(disk[..], vi.View())[offset..offset + n]
    {
      hide Contents;
      var align, k := offset % BLKSIZE, offset / BLKSIZE;
      var times: int, remain := (align + n) / BLKSIZE, (align + n) % BLKSIZE;
      ok := ReadBlock(vi.addrs[k]);
      buffer := [];
      if !ok {
        return;
      }
      var first := if times == 0 then n else BLKSIZE - align;
      buffer := io[align..align + first];
      assert buffer == Contents(disk[..], vi.View())[offset..offset + first] by {
        if k < vi.blocks {
          ReadFirst(disk[..], vi.View(), offset, first);
        }
      }
      k, times := k + 1, times - 1;
      if times >= 0 {
        buffer := ReadBlocks(vi, buffer, k, times, remain, offset);
      }
    }

    /** The complete blocks after the first, then the remaining bytes. */
    method ReadBlocks(vi: Vinode, first: seq<Byte>, k0: nat, times0: nat, remain: nat, ghost offset: nat)
      returns (buffer: seq<Byte>)
      requires FileOk(disk[..], vi.View()) && offset + |first| == k0 * BLKSIZE && remain < BLKSIZE
      requires (k0 + times0) * BLKSIZE + remain <= vi.size
      requires first == Contents(disk[..], vi.View())[offset..offset + |first|]
      modifies this`io
      ensures |buffer| == |first| + times0 * BLKSIZE + remain
      ensures buffer == Contents(disk[..], vi.View())[offset..offset + |buffer|]
    {
      hide Contents;
      var k, times := k0, times0;
      buffer := first;
      while times != 0
        invariant 0 <= times && k + times == k0 + times0 && |buffer| == |first| + (k - k0) * BLKSIZE
        invariant buffer == Contents(disk[..], vi.View())[offset..offset + |buffer|]
      {
        ReadOn(disk[..], vi.View(), offset, buffer, k, BLKSIZE);
        var _ := ReadBlock(vi.addrs[k]);
        assert io == io[..BLKSIZE];
        buffer := buffer + io;
        k, times := k + 1, times - 1;
      }
      if remain > 0 {
        ReadOn(disk[..], vi.View(), offset, buffer, k, remain);
        var _ := ReadBlock(vi.addrs[k]);
        buffer := buffer + io[..remain];
      }
    }
  }

  /** strcpy */
  method CopyString(s: seq<Byte>) returns (t: seq<Byte>)
    ensures t == UpToNul(s)
  {
    var i := 0;
    t := [];
    while i < |s| && s[i] != 0
      invariant i <= |s| && t == s[..i] && 0 !in t
    {
      t := t + [s[i]];
      i := i + 1;
    }
    UpToNulUnique(s, t);
  }

  /** Writing one file leaves every other file as it was: same blocks, same bytes, still marked used. */
  lemma OtherFilesKept(disk0: seq<Block>, free0: seq<int>, f: File, disk: seq<Block>, free: seq<int>,
                       addrs: seq<int>, blocks: nat, g: File)
    requires FileOk(disk0, f) && Grown(disk0, free0, f, disk, free, addrs, blocks)
    requires addrs[..f.blocks] == f.addrs[..f.blocks] && FileOk(disk0, g) && Owned(free0, g.addrs, g.blocks)
    requires forall i :: 0 <= i < g.blocks ==> g.addrs[i] !in f.addrs[..f.blocks]
    ensures FileOk(disk, g) && Contents(disk, g) == Contents(disk0, g) && Owned(free, g.addrs, g.blocks)
    ensures forall i :: 0 <= i < g.blocks ==> g.addrs[i] !in addrs[..blocks]
  {
    hide FreeCount;
    forall i | 0 <= i < g.blocks
      ensures g.addrs[i] !in addrs[..blocks] && Marked(free, g.addrs[i], true)
    {
      assert Marked(free0, g.addrs[i], true);
      forall j | 0 <= j < blocks
        ensures addrs[j] != g.addrs[i]
      {
        if j < f.blocks {
          assert addrs[..f.blocks][j] == addrs[j] && addrs[j] in f.addrs[..f.blocks];
        } else {
          assert Marked(free0, addrs[j], false);
        }
      }
    }
    var c, d := Contents(disk0, g), Contents(disk, g);
    forall x | 0 <= x < g.size
      ensures c[x] == d[x]
    {
      assert g.addrs[x / BLKSIZE] !in addrs[..blocks];
    }
  }

  lemma WriteEnds(disk0: seq<Block>, f: File, disk: seq<Block>, addrs: seq<int>, blocks: nat,
                  offset: nat, buf: seq<Byte>, io0: Block)
    requires FileOk(disk0, f) && offset <= f.size && offset + |buf| <= blocks * BLKSIZE
    requires var full := buf + Tail(io0, Contents(disk0, f), offset, buf);
             Progress(disk0, f, disk, addrs, blocks, offset, full, |full|)
    ensures addrs[..f.blocks] == f.addrs[..f.blocks]
    ensures var g := File(addrs, blocks, if f.size < offset + |buf| then offset + |buf| else f.size);
            FileOk(disk, g) && Contents(disk, g) == Written(io0, Contents(disk0, f), offset, buf)
  {
    hide Overlay;
    var tail := Tail(io0, Contents(disk0, f), offset, buf);
    ProgressDone(disk0, f, disk, File(addrs, blocks, if f.size < offset + |buf| then offset + |buf| else f.size),
        offset, buf + tail);
  }

  lemma NeededBeyond(blocks: nat, offset: nat, len: nat, k: nat)
    requires k * BLKSIZE < offset + len
    ensures blocks <= k ==> Needed(blocks, offset, len) >= k + 1 - blocks
    ensures offset + len <= (k + 1) * BLKSIZE ==>
        Needed(blocks, offset, len) == if blocks <= k then k + 1 - blocks else 0
  {
  }

  lemma WriteBegins(disk0: seq<Block>, free0: seq<int>, f: File, offset: nat, buf: seq<Byte>)
    requires FileOk(disk0, f) && Owned(free0, f.addrs, f.blocks)
    ensures Progress(disk0, f, disk0, f.addrs, f.blocks, offset, buf, 0)
    ensures Grown(disk0, free0, f, disk0, free0, f.addrs, f.blocks)
  {
  }

  lemma FreeLeft(disk0: seq<Block>, free0: seq<int>, f: File, disk: seq<Block>, free: seq<int>,
                 addrs: seq<int>, blocks: nat)
    requires Grown(disk0, free0, f, disk, free, addrs, blocks)
    ensures f.blocks <= blocks && FreeCount(free) + (blocks - f.blocks) == FreeCount(free0)
  {
  }

  lemma ProgressAddrs(disk0: seq<Block>, f: File, disk: seq<Block>, addrs: seq<int>, blocks: nat,
                      offset: nat, buf: seq<Byte>, n: nat)
    requires Progress(disk0, f, disk, addrs, blocks, offset, buf, n)
    ensures FileOk(disk0, f) && AddrsOk(disk, addrs, blocks) && f.blocks <= blocks && n <= |buf|
  {
  }

  /** The bytes of the block buffer behind the last bytes of a write. */
  lemma TailInBuffer(disk0: seq<Block>, f: File, disk: seq<Block>, addrs: seq<int>, blocks: nat,
                     offset: nat, buf: seq<Byte>, n: nat, k: nat, io0: Block, io: Block)
    requires Progress(disk0, f, disk, addrs, blocks, offset, buf, n)
    requires k <= blocks && offset + n == k * BLKSIZE && n < |buf| < n + BLKSIZE && offset <= f.size
    requires offset / BLKSIZE <= k
    requires if offset / BLKSIZE == k then io == io0 else 0 < k && io == disk[addrs[k - 1]]
    ensures var tail := Tail(io0, Contents(disk0, f), offset, buf);
            |buf| - n + |tail| <= BLKSIZE && tail == io[|buf| - n..|buf| - n + |tail|]
  {
    hide Progress, Overlay;
    ProgressAddrs(disk0, f, disk, addrs, blocks, offset, buf, n);
    var tail, remain := Tail(io0, Contents(disk0, f), offset, buf), |buf| - n;
    assert offset + |buf| == k * BLKSIZE + remain;
    Locate(k, remain);
    forall j | 0 <= j < |tail|
      ensures tail[j] == io[remain + j]
    {
      Locate(k, remain + j);
      if offset / BLKSIZE != k {
        PreviousBlock(disk0, f, disk, addrs, blocks, offset, buf, n, k, remain + j);
      }
    }
  }

  /** Block `k - 1` in the middle of a write: what the finished file has there. */
  lemma PreviousBlock(disk0: seq<Block>, f: File, disk: seq<Block>, addrs: seq<int>, blocks: nat,
                      offset: nat, buf: seq<Byte>, n: nat, k: nat, y: nat)
    requires Progress(disk0, f, disk, addrs, blocks, offset, buf, n)
    requires 0 < k <= blocks && offset + n == k * BLKSIZE && offset <= f.size && y < BLKSIZE
    ensures disk[addrs[k - 1]][y] == Overlay(Contents(disk0, f), offset, buf)[(k - 1) * BLKSIZE + y]
  {
    Locate(k - 1, y);
    assert CellOk(disk0, f, disk, addrs, offset, buf, n, (k - 1) * BLKSIZE + y);
  }

  lemma LastPatch(disk0: seq<Block>, f: File, disk: seq<Block>, addrs: seq<int>, blocks: nat,
                  offset: nat, buf: seq<Byte>, n: nat, k: nat, tail: seq<Byte>, content: Block)
    requires Progress(disk0, f, disk, addrs, blocks, offset, buf, n)
    requires k < blocks && offset + n == k * BLKSIZE && n < |buf| < n + BLKSIZE
    requires |tail| == TailLength(offset, |buf|, f.size) && |buf| - n + |tail| <= BLKSIZE
    requires content[..|buf| - n + |tail|] == buf[n..] + tail
    ensures var full := buf + tail;
            Progress(disk0, f, disk[addrs[k] := content], addrs, blocks, offset, full, |full|)
  {
    var full, remain := buf + tail, |buf| - n;
    assert Progress(disk0, f, disk, addrs, blocks, offset, full, n) by {
      forall x | 0 <= x < blocks * BLKSIZE
        ensures CellOk(disk0, f, disk, addrs, offset, full, n, x)
      {
        assert CellOk(disk0, f, disk, addrs, offset, buf, n, x);
      }
    }
    var m := remain + |tail|;
    assert forall y :: 0 <= y < m ==> content[y] == content[..m][y];
    Locate(k, remain);
    ProgressPatch(disk0, f, disk, addrs, blocks, offset, full, n, k, 0, m, content);
  }
}
