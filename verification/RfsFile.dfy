/** RFS files as byte sequences (kernel/rfs.c, kernel/ramdev.c): reading and writing through the
    block buffer, block by block. */
module RfsFile {

  const BLKSIZE: nat := 4096

  /** RFS_DIRECT_BLKNUM */
  const DIRECT: nat := 10

  /** First data block: RFS_BLK_OFFSET_FREE. */
  const FREE_OFFSET: nat := 12

  /** sizeof(struct rfs_direntry) */
  const ENTRY: nat := 32

  newtype Byte = x: int | 0 <= x < 256

  type Block = s: seq<Byte> | |s| == BLKSIZE witness seq(BLKSIZE, i => 0)

  /** The byte at position `x` of a file with the given block addresses. */
  function Cell(disk: seq<Block>, addrs: seq<int>, x: nat): Byte
    requires x / BLKSIZE < |addrs| && 0 <= addrs[x / BLKSIZE] < |disk|
  {
    disk[addrs[x / BLKSIZE]][x % BLKSIZE]
  }

  /** The first `blocks` addresses are distinct data blocks of the disk. */
  ghost predicate AddrsOk(disk: seq<Block>, addrs: seq<int>, blocks: nat) {
    && |addrs| == DIRECT && blocks <= DIRECT
    && (forall i :: 0 <= i < blocks ==> FREE_OFFSET <= addrs[i] < |disk|)
    && (forall i, j :: 0 <= i < j < blocks ==> addrs[i] != addrs[j])
  }

  /** The contents of a file. */
  ghost function Bytes(disk: seq<Block>, addrs: seq<int>, blocks: nat, size: nat): (s: seq<Byte>)
    requires AddrsOk(disk, addrs, blocks) && size <= blocks * BLKSIZE
    ensures |s| == size && forall x :: 0 <= x < size ==> s[x] == Cell(disk, addrs, x)
  {
    seq(size, x requires 0 <= x < size => Cell(disk, addrs, x))
  }

  /** Positions in one block have that block's index. */
  lemma Locate(k: nat, y: nat)
    requires y < BLKSIZE
    ensures (k * BLKSIZE + y) / BLKSIZE == k && (k * BLKSIZE + y) % BLKSIZE == y
  {
  }

  /** Replacing one block of a file changes the cells of that block only. */
  lemma CellAfterBlockWrite(disk: seq<Block>, addrs: seq<int>, blocks: nat, k: nat, content: Block, x: nat)
    requires AddrsOk(disk, addrs, blocks) && k < blocks && x / BLKSIZE < blocks
    ensures Cell(disk[addrs[k] := content], addrs, x) ==
              if x / BLKSIZE == k then content[x % BLKSIZE] else Cell(disk, addrs, x)
  {
  }

  /** A file: where its blocks are and how long it is. */
  datatype File = File(addrs: seq<int>, blocks: nat, size: nat)

  ghost predicate FileOk(disk: seq<Block>, f: File) {
    AddrsOk(disk, f.addrs, f.blocks) && f.size <= f.blocks * BLKSIZE
  }

  ghost function Contents(disk: seq<Block>, f: File): (s: seq<Byte>)
    requires FileOk(disk, f)
    ensures |s| == f.size
  {
    Bytes(disk, f.addrs, f.blocks, f.size)
  }

  /** A file in the middle of a write: the first `n` bytes of `buf` are in place from `offset` on, and
      every other byte of the old file is as before. */
  ghost predicate Progress(disk0: seq<Block>, f: File, disk: seq<Block>, addrs: seq<int>, blocks: nat,
                           offset: nat, buf: seq<Byte>, n: nat)
  {
    && FileOk(disk0, f) && AddrsOk(disk, addrs, blocks) && f.blocks <= blocks && n <= |buf|
    && addrs[..f.blocks] == f.addrs[..f.blocks]
    && forall x :: 0 <= x < blocks * BLKSIZE ==> CellOk(disk0, f, disk, addrs, offset, buf, n, x)
  }

  ghost predicate CellOk(disk0: seq<Block>, f: File, disk: seq<Block>, addrs: seq<int>,
                         offset: nat, buf: seq<Byte>, n: nat, x: nat)
    requires FileOk(disk0, f) && n <= |buf|
    requires x / BLKSIZE < |addrs| && 0 <= addrs[x / BLKSIZE] < |disk|
  {
    if offset <= x < offset + n then Cell(disk, addrs, x) == buf[x - offset]
    else x < f.size ==> Cell(disk, addrs, x) == Cell(disk0, f.addrs, x)
  }

  /** Overwriting part of block `k` with the next bytes of the buffer. What else the new block holds
      matters only where the old file had bytes. */
  lemma ProgressPatch(disk0: seq<Block>, f: File, disk: seq<Block>, addrs: seq<int>, blocks: nat,
                      offset: nat, buf: seq<Byte>, n: nat, k: nat, from: nat, m: nat, content: Block)
    requires Progress(disk0, f, disk, addrs, blocks, offset, buf, n)
    requires k < blocks && from + m <= BLKSIZE && n + m <= |buf| && k * BLKSIZE + from == offset + n
    requires forall y :: from <= y < from + m ==> content[y] == buf[n + y - from]
    requires forall y :: 0 <= y < from ==> content[y] == disk[addrs[k]][y]
    requires forall y :: from + m <= y < BLKSIZE && k * BLKSIZE + y < f.size ==> content[y] == disk[addrs[k]][y]
    ensures Progress(disk0, f, disk[addrs[k] := content], addrs, blocks, offset, buf, n + m)
  {
    var disk', t := disk[addrs[k] := content], n + m;
    forall x | 0 <= x < blocks * BLKSIZE
      ensures CellOk(disk0, f, disk', addrs, offset, buf, t, x)
    {
      assert CellOk(disk0, f, disk, addrs, offset, buf, n, x);
      CellAfterBlockWrite(disk, addrs, blocks, k, content, x);
      if x / BLKSIZE == k {
        var y := x % BLKSIZE;
        assert x == k * BLKSIZE + y;
      }
    }
  }

  /** A new block at the end of the file. */
  lemma ProgressGrow(disk0: seq<Block>, f: File, disk: seq<Block>, addrs: seq<int>, blocks: nat,
                     offset: nat, buf: seq<Byte>, n: nat, b: int)
    requires Progress(disk0, f, disk, addrs, blocks, offset, buf, n)
    requires blocks < DIRECT && FREE_OFFSET <= b < |disk| && offset + n == blocks * BLKSIZE
    requires forall i :: 0 <= i < blocks ==> addrs[i] != b
    ensures Progress(disk0, f, disk, addrs[blocks := b], blocks + 1, offset, buf, n)
  {
    var addrs' := addrs[blocks := b];
    assert addrs'[..f.blocks] == addrs[..f.blocks];
    forall x | 0 <= x < (blocks + 1) * BLKSIZE
      ensures CellOk(disk0, f, disk, addrs', offset, buf, n, x)
    {
      if x < blocks * BLKSIZE {
        assert CellOk(disk0, f, disk, addrs, offset, buf, n, x);
      }
    }
  }

  /** A finished write: the old contents with the buffer laid over them from `offset` on. */
  lemma ProgressDone(disk0: seq<Block>, f: File, disk: seq<Block>, g: File, offset: nat, buf: seq<Byte>)
    requires Progress(disk0, f, disk, g.addrs, g.blocks, offset, buf, |buf|) && FileOk(disk, g)
    requires offset <= f.size && g.size == if f.size < offset + |buf| then offset + |buf| else f.size
    ensures Contents(disk, g) == Overlay(Contents(disk0, f), offset, buf)
  {
    var c, d := Contents(disk, g), Overlay(Contents(disk0, f), offset, buf);
    forall x | 0 <= x < g.size
      ensures c[x] == d[x]
    {
      assert CellOk(disk0, f, disk, g.addrs, offset, buf, |buf|, x);
    }
  }

  /** Bytes overwritten from `offset` on, and extended if the buffer reaches further. */
  function Overlay(was: seq<Byte>, offset: nat, buf: seq<Byte>): seq<Byte>
    requires offset <= |was|
  {
    was[..offset] + buf + (if offset + |buf| < |was| then was[offset + |buf|..] else [])
  }

  // ---- what the block buffer leaves behind ----

  /** The write stops inside a block that it began at its start, short of the end of the file. */
  predicate StopsInside(offset: nat, len: nat, size: nat) {
    && offset + len < size && (offset + len) % BLKSIZE != 0
    && (offset % BLKSIZE == 0 || (offset + len) / BLKSIZE != offset / BLKSIZE)
  }

  /** How many bytes of the old file lie behind such a write, in its last block. */
  function TailLength(offset: nat, len: nat, size: nat): (n: nat)
    ensures n == 0 <==> !StopsInside(offset, len, size)
    ensures StopsInside(offset, len, size) ==>
              offset + len + n <= size && (offset + len) % BLKSIZE + n <= BLKSIZE
  {
    var rest := BLKSIZE - (offset + len) % BLKSIZE;
    if !StopsInside(offset, len, size) then 0
    else if offset + len + rest <= size then rest
    else size - offset - len
  }

  /** What those bytes become: a copy of the bytes one block earlier, or, if the write has one block
      only, what the block buffer held before the call. */
  function Tail(io: Block, was: seq<Byte>, offset: nat, buf: seq<Byte>): (t: seq<Byte>)
    requires offset <= |was|
    ensures |t| == TailLength(offset, |buf|, |was|)
  {
    var now := Overlay(was, offset, buf);
    var start := offset + |buf|;
    seq(TailLength(offset, |buf|, |was|), j requires 0 <= j < TailLength(offset, |buf|, |was|) =>
      if start / BLKSIZE == offset / BLKSIZE then io[(start + j) % BLKSIZE] else now[start + j - BLKSIZE])
  }

  /** The contents of a file after a write, for every offset and length. */
  function Written(io: Block, was: seq<Byte>, offset: nat, buf: seq<Byte>): seq<Byte>
    requires offset <= |was|
  {
    Overlay(was, offset, buf + Tail(io, was, offset, buf))
  }

  /** Overwriting works as a file system promises, whatever the file, the data and the buffer hold,
      exactly for the writes that do not stop inside a block begun at its start. */
  lemma OverwriteIsExact(offset: nat, len: nat, size: nat)
    requires offset <= size
    ensures !StopsInside(offset, len, size) <==>
              forall io: Block, was: seq<Byte>, buf: seq<Byte> :: |was| == size && |buf| == len ==>
                Written(io, was, offset, buf) == Overlay(was, offset, buf)
  {
    if !StopsInside(offset, len, size) {
      forall io: Block, was: seq<Byte>, buf: seq<Byte> | |was| == size && |buf| == len
        ensures Written(io, was, offset, buf) == Overlay(was, offset, buf)
      {
        assert buf + Tail(io, was, offset, buf) == buf;
      }
    } else {
      var zeros: seq<Byte> := seq(size, i => 0);
      var io: Block, was, buf: seq<Byte> := seq(BLKSIZE, i => 0), zeros[offset + len := 1], seq(len, i => 0);
      var t := Tail(io, was, offset, buf);
      assert Overlay(was, offset, buf)[offset + len] == 1;
      assert t[0] == 0;
      assert Written(io, was, offset, buf)[offset + len] == (buf + t)[len] == 0;
    }
  }

  /** Byte `x` of a file after a write of `buf` at `offset`, byte by byte: the buffer where it was laid, the
      old bytes before it and in other blocks behind it. In the block where the write stops the old bytes
      stay too if the write is inside it from start to stop, and not from its first byte on, or ends with it;
      otherwise they are those that the block buffer held before, or a copy of the bytes one block earlier. */
  lemma WrittenAt(io: Block, was: seq<Byte>, offset: nat, buf: seq<Byte>, x: nat)
    requires offset <= |was|
    ensures var w, end := Written(io, was, offset, buf), offset + |buf|;
            && |w| == (if |was| < end then end else |was|)
            && (x < offset ==> w[x] == was[x])
            && (offset <= x < end ==> w[x] == buf[x - offset])
            && (end <= x < |w| ==>
                  w[x] ==
                    if x / BLKSIZE != end / BLKSIZE || end % BLKSIZE == 0 then was[x]
                    else if end / BLKSIZE != offset / BLKSIZE then w[x - BLKSIZE]
                    else if offset % BLKSIZE == 0 then io[x % BLKSIZE]
                    else was[x])
  {
    var end, t := offset + |buf|, Tail(io, was, offset, buf);
    var w := Written(io, was, offset, buf);
    if end <= x < |w| {
      if x < end + |t| {
        assert w[x] == (buf + t)[x - offset] == t[x - end];
        assert x / BLKSIZE == end / BLKSIZE;
        if end / BLKSIZE != offset / BLKSIZE {
          assert x - BLKSIZE < end;
        }
      } else {
        assert w[x] == was[x];
      }
    }
  }

  // ---- reading ----

  /** What strcpy copies: the bytes before the first zero. */
  function UpToNul(s: seq<Byte>): (t: seq<Byte>)
    ensures t <= s && 0 !in t && (|t| < |s| ==> s[|t|] == 0)
  {
    if s == [] || s[0] == 0 then [] else [s[0]] + UpToNul(s[1..])
  }

  /** Bytes without a zero survive strcpy. */
  lemma {:induction false} UpToNulAll(s: seq<Byte>)
    requires 0 !in s
    ensures UpToNul(s) == s
  {
    if s != [] {
      UpToNulAll(s[1..]);
    }
  }

  lemma {:induction false} UpToNulUnique(s: seq<Byte>, t: seq<Byte>)
    requires t <= s && 0 !in t && (|t| < |s| ==> s[|t|] == 0)
    ensures t == UpToNul(s)
  {
    if t == [] {
      assert UpToNul(s) == [];
    } else {
      UpToNulUnique(s[1..], t[1..]);
      assert t == [s[0]] + t[1..];
    }
  }

  /** What a read returns: at most `len` bytes, up to the end of the file, cut at the first zero. */
  function ReadOf(content: seq<Byte>, offset: nat, len: nat): seq<Byte>
    requires offset <= |content|
  {
    var upto := if |content| < offset + len then |content| else offset + len;
    UpToNul(content[offset..upto])
  }

  /** `t` is what a caller may expect of a read: the bytes at the offset, none of them zero, and as many as
      asked for unless the file ends or a zero follows. */
  ghost predicate Reads(content: seq<Byte>, offset: nat, len: nat, t: seq<Byte>) {
    && offset <= |content| && t <= content[offset..] && |t| <= len && 0 !in t
    && (|t| == len || offset + |t| == |content| || content[offset + |t|] == 0)
  }

  /** A read returns that. */
  lemma ReadIsExpected(content: seq<Byte>, offset: nat, len: nat)
    requires offset <= |content|
    ensures Reads(content, offset, len, ReadOf(content, offset, len))
  {
    hide UpToNul;
    var upto := if |content| < offset + len then |content| else offset + len;
    var t := ReadOf(content, offset, len);
    assert content[offset..upto] == content[offset..][..upto - offset];
    assert |t| < upto - offset ==> content[offset + |t|] == content[offset..upto][|t|];
  }

  /** There is only one such answer. */
  lemma ReadIsUnique(content: seq<Byte>, offset: nat, len: nat, t: seq<Byte>, u: seq<Byte>)
    requires Reads(content, offset, len, t) && Reads(content, offset, len, u)
    ensures t == u
  {
    var rest := content[offset..];
    assert forall i :: 0 <= i < |t| ==> t[i] == rest[i] == content[offset + i];
    assert forall i :: 0 <= i < |u| ==> u[i] == rest[i] == content[offset + i];
  }

  /** Asked for at least its size, a file without zeros is read in whole. */
  lemma WholeRead(content: seq<Byte>, len: nat, t: seq<Byte>)
    requires Reads(content, 0, len, t) && 0 !in content && |content| <= len
    ensures t == content
  {
    assert content[0..] == content;
    assert forall i :: 0 <= i < |content| ==> content[i] in content;
  }

  /** Writing and then reading at the same offset gives the bytes back, wherever the write ends. */
  lemma ReadBack(io: Block, was: seq<Byte>, offset: nat, buf: seq<Byte>)
    requires offset <= |was| && 0 !in buf
    ensures ReadOf(Written(io, was, offset, buf), offset, |buf|) == buf
  {
    assert Written(io, was, offset, buf)[offset..offset + |buf|] == buf;
    UpToNulAll(buf);
  }

  /** A write at the end of the file, or past it, keeps the bytes before it and ends with the buffer. */
  lemma WriteToTheEnd(io: Block, was: seq<Byte>, offset: nat, buf: seq<Byte>)
    requires offset <= |was| <= offset + |buf|
    ensures Written(io, was, offset, buf) == was[..offset] + buf
  {
    assert buf + Tail(io, was, offset, buf) == buf;
  }

  /** The front of block `k` continues the bytes read so far. */
  lemma ReadOn(disk: seq<Block>, f: File, offset: nat, buffer: seq<Byte>, k: nat, m: nat)
    requires FileOk(disk, f) && k < f.blocks && m <= BLKSIZE && k * BLKSIZE + m <= f.size
    requires offset + |buffer| == k * BLKSIZE && buffer == Contents(disk, f)[offset..offset + |buffer|]
    ensures buffer + disk[f.addrs[k]][..m] == Contents(disk, f)[offset..offset + |buffer| + m]
  {
    var bytes, piece := Contents(disk, f), disk[f.addrs[k]][..m];
    forall i | 0 <= i < m
      ensures piece[i] == bytes[offset + |buffer| + i]
    {
      Locate(k, i);
    }
  }

  /** The bytes of the first block read. */
  lemma ReadFirst(disk: seq<Block>, f: File, offset: nat, m: nat)
    requires FileOk(disk, f) && offset + m <= f.size && offset % BLKSIZE + m <= BLKSIZE && offset / BLKSIZE < f.blocks
    ensures disk[f.addrs[offset / BLKSIZE]][offset % BLKSIZE..offset % BLKSIZE + m] ==
              Contents(disk, f)[offset..offset + m]
  {
    var k, align := offset / BLKSIZE, offset % BLKSIZE;
    var bytes, piece := Contents(disk, f), disk[f.addrs[k]][align..align + m];
    forall i | 0 <= i < m
      ensures piece[i] == bytes[offset + i]
    {
      Locate(k, align + i);
    }
  }
}
