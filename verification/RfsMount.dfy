/** The file operations of kernel/vfs.c and kernel/rfs.c on a mounted volume: the disk inodes and the
    free map are arrays that are searched, the caches are behind the two hash tables, and the bytes of
    files and directories are in the blocks of the RAM disk. */
module RfsMount {
  import opened Basics
  import opened HashTables
  import opened RfsFile
  import B = RfsBlocks
  import D = RfsDir
  import P = Paths
  import opened RfsVolume
  import opened RfsOwnership
  import opened RfsNames
  import opened RfsContents
  import opened RfsMountViews

  class Mount {
    const volume: B.Volume
    const inodes: array<Option<Inode>>
    const vinodeTable: HashTable<int, int>
    const dentryTable: HashTable<P.Key, int>
    /** what the bytes of the directories list */
    ghost var entries: map<Key, int>
    var vinodes: map<int, Vinode>
    var dentries: map<int, Dentry>
    var page: int

    ghost function View(): State
      reads this, inodes, volume.freemap, vinodeTable
    {
      State(Live(inodes[..]), entries, UsedIn(volume.freemap[..]), vinodes, vinodeTable.contents, dentries)
    }

    ghost function DiskView(): Disked
      reads this, inodes, volume.freemap, volume.disk, vinodeTable
    {
      Disked(View(), volume.disk[..])
    }

    /** The tables are hash tables, and hold what they should. */
    ghost predicate TablesOk()
      reads this, vinodeTable, dentryTable
    {
      && vinodeTable.Valid() && (forall k :: 0 <= vinodeTable.hash(k) < SIZE)
      && dentryTable.Valid() && (forall k :: 0 <= dentryTable.hash(k) < SIZE)
      && Indexed(dentries, dentryTable.contents)
      && Beyond(page, vinodes, dentries, vinodeTable.View(), dentryTable.View())
    }

    ghost predicate Valid()
      reads this, inodes, volume, volume.freemap, volume.disk, vinodeTable, dentryTable
    {
      inodes.Length == INODES && volume.Valid() && TablesOk() && VolInv(DiskView())
    }

    /** Nothing on the disk, nothing cached. */
    ghost predicate Blank()
      reads this, inodes, volume.freemap, vinodeTable, dentryTable
    {
      && TablesOk() && vinodeTable.contents == map[] && dentryTable.contents == map[]
      && entries == map[] && vinodes == map[] && dentries == map[]
      && (forall n :: 0 <= n < inodes.Length ==> inodes[n] == None)
      && (forall b :: 0 <= b < volume.freemap.Length ==> volume.freemap[b] == 0)
    }

    constructor (blocks: nat, nblocks: nat)
      requires FREE_OFFSET + nblocks <= blocks
      ensures Blank() && inodes.Length == INODES && volume.Valid() && volume.freemap.Length == nblocks
      ensures fresh(volume) && fresh(volume.disk) && fresh(volume.freemap) && fresh(inodes)
      ensures fresh(vinodeTable) && fresh(dentryTable)
    {
      hide HashTables.TableOk, P.DentryHash, VinodeHash, Unused;
      volume := new B.Volume(blocks, nblocks);
      inodes := new Option<Inode>[INODES](i => None);
      vinodeTable := new HashTable<int, int>(VinodeHash);
      dentryTable := new HashTable<P.Key, int>(P.DentryHash);
      entries, vinodes, dentries, page := map[], map[], map[], SIZE;
    }

    /** rfs_format_dev: the root directory with the first data block. */
    method FormatDevice()
      requires Blank() && inodes.Length == INODES && volume.freemap.Length > 0
      modifies inodes, volume.freemap
      ensures Live(inodes[..]) == Formatted(FREE_OFFSET).dinodes && UsedIn(volume.freemap[..]) == {FREE_OFFSET}
    {
      hide HashTables.TableOk, Live, UsedIn, Unused, Indexed;
      var root := Inode(DirKind, 1, [FREE_OFFSET], 0);
      inodes[ROOT] := Some(root);
      volume.freemap[0] := 1;
      FormattedArrays(inodes[..], root, volume.freemap[..]);
    }

    /** rfs_get_superblock and vfs_mount: the caches have the root directory. */
    method MountRoot()
      requires TablesOk() && vinodeTable.contents == map[] && dentryTable.contents == map[]
      requires vinodes == map[] && dentries == map[]
      modifies this`vinodes, this`dentries, this`page, vinodeTable, dentryTable
      ensures var s := Formatted(FREE_OFFSET);
              TablesOk() && vinodes == s.vinodes && vinodeTable.contents == s.table && dentries == s.dentries
    {
      hide HashTables.TableOk, Unused, Indexed;
      var top := Dentry(-1, "/", 0, 0);
      IndexedAdd(dentries, dentryTable.contents, 0, top);
      var _ := vinodeTable.Put(ROOT, 0, page);
      var _ := dentryTable.Put(NameOf(top), 0, page);
      vinodes := vinodes[0 := Vinode(ROOT, Inode(DirKind, 1, [FREE_OFFSET], 0), 1)];
      dentries := dentries[0 := top];
      page := page + 1;
    }

    /** A formatted and mounted volume is the one that the runs of RfsContents start with. */
    method Format()
      requires Blank() && inodes.Length == INODES && volume.Valid() && volume.freemap.Length > 0
      modifies this, inodes, volume.freemap, vinodeTable, dentryTable
      ensures Valid() && DiskView() == FreshVolume(FREE_OFFSET, old(volume.disk[..]))
    {
      hide VolInv, HashTables.TableOk, Live, UsedIn, Unused, Indexed;
      FormattedVolume(volume.disk[..]);
      FormatDevice();
      MountRoot();
    }

    /** The fields of a vinode that the routines of kernel/rfs.c work on. */
    method NewVinode(inode: Inode) returns (vi: B.Vinode)
      requires |inode.blocks| <= DIRECT
      ensures fresh(vi) && vi.View() == FileOf(inode)
    {
      vi := new B.Vinode(inode.blocks + seq(DIRECT - |inode.blocks|, i => 0), |inode.blocks|, inode.size);
    }

    /** rfs_read_dinode. The inode's block goes through the block buffer. */
    method ReadInode(n: nat) returns (x: Option<Inode>)
      requires n < inodes.Length
      modifies volume`io
      ensures x == inodes[n]
    {
      volume.io := *;
      x := inodes[n];
    }

    /** rfs_write_dinode, through the block buffer too; None stands for R_FREE. */
    method WriteInode(n: nat, x: Option<Inode>)
      requires n < inodes.Length
      modifies inodes, volume`io
      ensures inodes[..] == old(inodes[..])[n := x]
      ensures Live(inodes[..]) ==
                match x case Some(inode) => old(Live(inodes[..]))[n := inode] case None => old(Live(inodes[..])) - {n}
    {
      LiveAfter(inodes[..], n, x);
      volume.io := *;
      inodes[n] := x;
    }

    /** alloc_vfs_dentry and hash_put_dentry */
    method PutDentry(x: Dentry) returns (d: int)
      requires TablesOk() && NameOf(x) !in dentryTable.contents
      modifies this`dentries, this`page, dentryTable
      ensures TablesOk() && dentries == old(dentries)[d := x] && d == old(page) && page == old(page) + 1
    {
      hide HashTables.TableOk, Unused, Indexed;
      d := page;
      IndexedAdd(dentries, dentryTable.contents, d, x);
      var _ := dentryTable.Put(NameOf(x), d, page);
      dentries := dentries[d := x];
      page := page + 1;
    }

    /** rfs_alloc_vinode and hash_put_vinode */
    method PutVinode(node: Vinode) returns (v: int)
      requires TablesOk()
      modifies this`vinodes, this`page, vinodeTable
      ensures TablesOk() && vinodes == old(vinodes)[v := node] && v == old(page) && page == old(page) + 1
      ensures vinodeTable.contents ==
                if node.inum in old(vinodeTable.contents) then old(vinodeTable.contents)
                else old(vinodeTable.contents)[node.inum := v]
    {
      hide HashTables.TableOk, Unused, Indexed;
      v := page;
      var _ := vinodeTable.Put(node.inum, v, page);
      vinodes := vinodes[v := node];
      page := page + 1;
    }

    /** hash_erase_dentry and free_vfs_dentry */
    method DropDentry(d: int)
      requires TablesOk() && d in dentries
      modifies this`dentries, dentryTable
      ensures TablesOk() && dentries == old(dentries) - {d}
    {
      hide HashTables.TableOk, Unused, Indexed;
      IndexedDrop(dentries, dentryTable.contents, d);
      var _ := dentryTable.Erase(NameOf(dentries[d]));
      dentries := dentries - {d};
    }

    /** hash_erase_vinode and free_page */
    method DropVinode(v: int)
      requires TablesOk() && v in vinodes
      modifies this`vinodes, vinodeTable
      ensures TablesOk() && vinodes == old(vinodes) - {v}
      ensures vinodeTable.contents == old(vinodeTable.contents) - {old(vinodes)[v].inum}
    {
      hide HashTables.TableOk, Unused, Indexed;
      var _ := vinodeTable.Erase(vinodes[v].inum);
      vinodes := vinodes - {v};
    }

    method SetVinode(v: int, node: Vinode)
      requires TablesOk() && v in vinodes
      modifies this`vinodes
      ensures TablesOk() && vinodes == old(vinodes)[v := node]
    {
      hide HashTables.TableOk, Unused, Indexed;
      vinodes := vinodes[v := node];
    }

    method SetOpens(d: int, opens: int)
      requires TablesOk() && d in dentries
      modifies this`dentries
      ensures TablesOk() && dentries == old(dentries)[d := old(dentries)[d].(opens := opens)]
    {
      hide HashTables.TableOk, Unused, Indexed;
      IndexedSame(dentries, dentryTable.contents, d, dentries[d].(opens := opens));
      dentries := dentries[d := dentries[d].(opens := opens)];
    }

    /** The vinode of inode `n`: the cached one with one more reference, or a new one from the disk. */
    method FindVinode(n: int) returns (v: int)
      requires TablesOk() && 0 <= n < inodes.Length && inodes[n].Some?
      requires n in vinodeTable.contents ==> vinodeTable.contents[n] in vinodes
      modifies this`vinodes, this`page, vinodeTable, volume`io
      ensures TablesOk()
      ensures var shared, t := n in old(vinodeTable.contents), old(vinodeTable.contents);
              && v == (if shared then t[n] else old(page)) && page == (if shared then old(page) else old(page) + 1)
              && vinodeTable.contents == (if shared then t else t[n := v])
              && vinodes == old(vinodes)[v := if shared then old(vinodes)[v].(ref := old(vinodes)[v].ref + 1)
                                               else Vinode(n, inodes[n].value, 1)]
    {
      hide HashTables.TableOk, Unused, Indexed, Beyond;
      var inode := ReadInode(n);
      var same := vinodeTable.Get(n);
      if same.Some? {
        v := same.value;
        SetVinode(v, vinodes[v].(ref := vinodes[v].ref + 1));
      } else {
        v := PutVinode(Vinode(n, inode.value, 1));
      }
    }

    /** The search of rfs_lookup and rfs_unlink through the entries of a directory. */
    method FindName(p: int, name: string) returns (n: Option<int>, i: nat)
      requires Valid() && IsDir(View(), p) && IsBytes(name)
      modifies volume`io
      ensures var key := Key(vinodes[dentries[p].vid].inum, name);
              n == if key in entries then Some(entries[key]) else None
      ensures var inode := vinodes[dentries[p].vid].inode;
              n.Some? ==> Fits(volume.disk[..], inode) && (i + 1) * ENTRY <= inode.size
                          && NameAt(Text(volume.disk[..], inode), i) == name
    {
      hide VolInv, HashTables.TableOk, Live, UsedIn, Unused, Indexed, Lists, Contents, Coded;
      hide D.EntryAt, D.NameOf, D.InumOf;
      var node := vinodes[dentries[p].vid];
      DirReady(DiskView(), inodes[..], p);
      ListsEnd(Text(volume.disk[..], node.inode), node.inum, entries);
      CodedReads(name);
      var vi := NewVinode(node.inode);
      i := D.FindEntry(volume, vi, Coded(name));
      FindDecides(Text(volume.disk[..], node.inode), node.inum, entries, name, i);
      n := None;
      if i < vi.size / ENTRY {
        n := Some(D.InumOf(volume.io[D.Offset(i)..D.Offset(i) + ENTRY]));
      }
    }

    /** A name that is in the directory but not in the dentry table. */
    method Load(p: int, name: string, n: int) returns (d: int, ghost w: int)
      requires Valid() && IsDir(View(), p) && P.Key(p, name) !in dentryTable.contents
      requires var key := Key(vinodes[dentries[p].vid].inum, name); key in entries && entries[key] == n
      modifies this`vinodes, this`dentries, this`page, vinodeTable, dentryTable, volume`io
      ensures d !in old(dentries) && w !in old(vinodes) && View() == LookupStep(old(View()), p, name, d, w)
      ensures TablesOk() && d in dentries && NameOf(dentries[d]) == P.Key(p, name)
    {
      hide VolInv, HashTables.TableOk, Live, UsedIn, Unused, Indexed, Cached;
      IndexedCached(View(), dentryTable.contents, p, name);
      LookupFinds(DiskView(), inodes[..], Key(vinodes[dentries[p].vid].inum, name));
      w := if n in vinodeTable.contents then page + 1 else page;
      var v := FindVinode(n);
      d := PutDentry(Dentry(p, name, v, 0));
    }

    /** One name of lookup_final_dentry, with rfs_lookup: first the dentry table, then the directory; a
        vinode that is cached already is shared. */
    method Lookup(p: int, name: string) returns (r: Option<int>, ghost c: Call)
      requires Valid() && IsDir(View(), p) && IsBytes(name)
      modifies this, vinodeTable, dentryTable, volume`io
      ensures Valid() && Performs(old(DiskView()), c, DiskView())
      ensures c.Manage? && c.e.Lookup? && c.e.parent == p && c.e.name == name
      ensures r.Some? <==> Key(old(vinodes[dentries[p].vid].inum), name) in entries
      ensures r.Some? ==> r.value in dentries && NameOf(dentries[r.value]) == P.Key(p, name)
    {
      hide VolInv, HashTables.TableOk, Live, UsedIn, Unused, Indexed, Cached, Performs, CanCall;
      ghost var v0, w := DiskView(), page;
      c := Manage(RfsVolume.Lookup(p, name, page, page), map[]);
      LookupCall(v0, p, name, page, page);
      CachedIsEntry(v0, dentryTable.contents, p, name);
      r := dentryTable.Get(P.Key(p, name));
      if r.Some? {
        IndexedAt(dentries, dentryTable.contents, P.Key(p, name));
        return;
      }
      var n, _ := FindName(p, name);
      if n.Some? {
        var d;
        d, w := Load(p, name, n.value);
        r := Some(d);
        c := Manage(RfsVolume.Lookup(p, name, d, w), map[]);
        LookupCall(v0, p, name, d, w);
      }
    }

    /** The search of rfs_create and rfs_mkdir for a free disk inode. It ends with 0 when none is free. */
    method FindInode() returns (n: nat)
      requires inodes.Length == INODES
      modifies volume`io
      ensures n < INODES
      ensures if None in inodes[..] then inodes[n] == None && None !in inodes[..n] else n == ROOT
    {
      n := 0;
      while n < INODES
        invariant n <= INODES && None !in inodes[..n]
      {
        var x := ReadInode(n);
        if x == None {
          return;
        }
        n := n + 1;
      }
      assert inodes[..n] == inodes[..];
      n := 0;
    }

    /** The disk's part of a creation: an inode and a block. */
    method NewInode(kind: Kind) returns (ok: bool, n: nat, inode: Inode)
      requires inodes.Length == INODES
      modifies inodes, volume.freemap, volume`io
      ensures ok <==> B.FreeCount(old(volume.freemap[..])) != 0
      ensures n < INODES && if None in old(inodes[..]) then n !in old(Live(inodes[..])) else n == ROOT
      ensures ok ==> var b := Block0(inode);
                     && inode == Inode(kind, 1, [b], 0) && FREE_OFFSET <= b < FREE_OFFSET + volume.freemap.Length
                     && b !in old(UsedIn(volume.freemap[..]))
                         && UsedIn(volume.freemap[..]) == old(UsedIn(volume.freemap[..])) + {b}
                     && Live(inodes[..]) == old(Live(inodes[..]))[n := inode]
    {
      hide B.FreeCount;
      inode := Inode(kind, 1, [], 0);
      n := FindInode();
      ghost var free0 := volume.freemap[..];
      var block;
      ok, block := volume.AllocBlock();
      if ok {
        inode := Inode(kind, 1, [FREE_OFFSET + block], 0);
        UsedAfter(free0, FREE_OFFSET + block, 1);
        WriteInode(n, Some(inode));
      }
    }

    /** What rfs_add_direntry and rfs_unlink need of directory `p`. */
    ghost predicate DirThere(p: int)
      reads this, volume.disk
    {
      && p in dentries && dentries[p].vid in vinodes && 0 <= vinodes[dentries[p].vid].inum < inodes.Length
      && var inode := vinodes[dentries[p].vid].inode;
         Fits(volume.disk[..], inode) && D.DirOk(volume.disk[..], FileOf(inode)) && |inode.blocks| == 1
    }

    /** rfs_add_direntry: the entry behind the others, and the directory's new length in its vinode and on
        disk. */
    method AddName(p: int, name: string, m: nat) returns (ghost patch: map<int, Block>)
      requires volume.Valid() && TablesOk() && DirThere(p) && NameFits(name) && m < INUMS
      requires vinodes[dentries[p].vid].inode.size + ENTRY <= BLKSIZE
      modifies this`vinodes, inodes, volume`io, volume.disk
      ensures TablesOk()
      ensures var node := old(vinodes[dentries[p].vid]);
              var inode' := node.inode.(size := node.inode.size + ENTRY);
              && EntryAdded(old(volume.disk[..]), node.inode, name, m, patch)
              && volume.disk[..] == Patched(old(volume.disk[..]), patch)
              && vinodes == old(vinodes)[dentries[p].vid := node.(inode := inode')]
              && Live(inodes[..]) == old(Live(inodes[..]))[node.inum := inode']
    {
      hide HashTables.TableOk, Live, Unused, Indexed, Beyond, Contents, Coded, EntryAdded, Patched, D.Entry;
      var v := dentries[p].vid;
      var node := vinodes[v];
      ghost var disk0 := volume.disk[..];
      CodedReads(name);
      var vi := NewVinode(node.inode);
      D.AddEntry(volume, vi, Coded(name), m);
      ghost var was :| |was| == ENTRY
        && Contents(volume.disk[..], vi.View()) == Text(disk0, node.inode) + D.Entry(was, m, Coded(name));
      AddedByEntry(disk0, node.inode, name, m, volume.disk[..], vi.View(), was);
      patch := Rewritten(volume.disk[..], node.inode.blocks);
      var inode := node.inode.(size := vi.size);
      SetVinode(v, node.(inode := inode));
      WriteInode(node.inum, Some(inode));
    }

    /** rfs_create and rfs_mkdir: an inode, a block, an entry, and the inode for the new vinode, which
        rfs_mkdir reads back after the entry is written. */
    method MakeNode(kind: Kind, p: int, name: string)
      returns (ok: bool, n: nat, inode: Inode, ghost b: int, ghost patch: map<int, Block>)
      requires inodes.Length == INODES && volume.Valid() && TablesOk() && DirThere(p) && NameFits(name)
      requires vinodes[dentries[p].vid].inode.size + ENTRY <= BLKSIZE && inodes[vinodes[dentries[p].vid].inum].Some?
      modifies this`vinodes, inodes, volume`io, volume.disk, volume.freemap
      ensures ok <==> B.FreeCount(old(volume.freemap[..])) != 0
      ensures n < INODES && TablesOk() && if None in old(inodes[..]) then n !in old(Live(inodes[..])) else n == ROOT
      ensures ok ==>
                var node, made := old(vinodes[dentries[p].vid]), Inode(kind, 1, [b], 0);
                var inode' := node.inode.(size := node.inode.size + ENTRY);
                && FREE_OFFSET <= b < FREE_OFFSET + volume.freemap.Length
                && b !in old(UsedIn(volume.freemap[..]))
                && UsedIn(volume.freemap[..]) == old(UsedIn(volume.freemap[..])) + {b}
                && EntryAdded(old(volume.disk[..]), node.inode, name, n, patch)
                && volume.disk[..] == Patched(old(volume.disk[..]), patch)
                && vinodes == old(vinodes)[dentries[p].vid := node.(inode := inode')]
                && Live(inodes[..]) == old(Live(inodes[..]))[n := made][node.inum := inode']
                && (None in old(inodes[..]) ==> inode == made)
    {
      hide HashTables.TableOk, UsedIn, Unused, Indexed, Beyond, B.FreeCount, EntryAdded, Patched, Fits, D.DirOk;
      patch := map[];
      ok, n, inode := NewInode(kind);
      b := Block0(inode);
      if ok {
        patch := AddName(p, name, n);
        if kind == DirKind {
          var x := ReadInode(n);
          assert n in Live(inodes[..]);
          inode := x.value;
        }
      }
    }

    /** The new vinode and dentry in the tables, and the file open. */
    method CacheNode(kind: Kind, p: int, name: string, n: nat, inode: Inode) returns (d: int, v: int)
      requires TablesOk() && P.Key(p, name) !in dentryTable.contents
      modifies this`vinodes, this`dentries, this`page, vinodeTable, dentryTable
      ensures TablesOk() && v == old(page) && d == old(page) + 1
      ensures vinodes == old(vinodes)[v := Vinode(n, inode, 1)]
      ensures dentries == old(dentries)[d := Dentry(p, name, v, if kind == FileKind then 1 else 0)]
      ensures vinodeTable.contents ==
                if n in old(vinodeTable.contents) then old(vinodeTable.contents) else old(vinodeTable.contents)[n := v]
    {
      hide HashTables.TableOk, Unused, Indexed, Beyond;
      v := PutVinode(Vinode(n, inode, 1));
      d := PutDentry(Dentry(p, name, v, 0));
      if kind == FileKind {
        SetOpens(d, 1);
      }
    }

    /** rfs_create with vfs_open, and rfs_mkdir with vfs_mkdir, of a name that was not found, in a
        directory with room. `ok` is false where the kernel panics. The volume stays in order exactly if
        a disk inode was free: else the root's inode gets a second vinode. By InodeLeft one is free if
        there are more of them than data blocks. */
    method Create(kind: Kind, p: int, name: string) returns (ok: bool, d: int, ghost c: Call)
      requires Valid() && IsDir(View(), p) && Key(vinodes[dentries[p].vid].inum, name) !in entries
      requires Room(View(), p) && NameFits(name)
      modifies this, inodes, volume`io, volume.disk, volume.freemap, vinodeTable, dentryTable
      ensures ok <==> B.FreeCount(old(volume.freemap[..])) != 0
      ensures ok && None in old(inodes[..]) ==> Valid() && Performs(old(DiskView()), c, DiskView())
      ensures ok && None in old(inodes[..]) ==>
                c.Manage? && c.e.Make? && c.e.kind == kind && c.e.parent == p && c.e.name == name && c.e.d == d
      ensures ok && None !in old(inodes[..]) ==> !Inv(View())
    {
      hide VolInv, HashTables.TableOk, Live, UsedIn, Unused, Indexed, Cached, Performs, CanCall, B.FreeCount, Beyond;
      hide EntryAdded, Patched, Fits, Inv, NameFits, D.DirOk, Lists, Text;
      ghost var v0 := DiskView();
      PagesKnown(page, vinodes, dentries, vinodeTable.View(), dentryTable.View());
      CachedIsEntry(v0, dentryTable.contents, p, name);
      DirReady(v0, inodes[..], p);
      RootIsCached(v0);
      d, c := 0, Manage(Open(0), map[]);
      var n, inode, v;
      ghost var b, patch;
      ok, n, inode, b, patch := MakeNode(kind, p, name);
      if !ok {
        return;
      }
      entries := entries[Key(vinodes[dentries[p].vid].inum, name) := n];
      d, v := CacheNode(kind, p, name, n, inode);
      c := Manage(Make(kind, p, name, d, v, n, b), patch);
      if None in old(inodes[..]) {
        MadeInOrder(v0, View(), kind, p, name, d, v, n, b, patch);
      } else {
        SecondRoot(View(), v);
      }
    }

    /** vfs_open of a file that was found. */
    method OpenFile(d: int) returns (ghost c: Call)
      requires Valid() && IsFile(View(), d)
      modifies this`dentries
      ensures Valid() && c == Manage(Open(d), map[]) && Performs(old(DiskView()), c, DiskView())
    {
      hide VolInv, HashTables.TableOk, Live, UsedIn, Unused, Indexed, Performs, CanCall;
      c := Manage(Open(d), map[]);
      OpenCall(DiskView(), d);
      SetOpens(d, dentries[d].opens + 1);
    }

    /** One reference less; a vinode without references is written back and dropped. */
    method Release(v: int) returns (dropped: bool)
      requires TablesOk() && v in vinodes && 0 <= vinodes[v].inum < inodes.Length
      modifies this`vinodes, inodes, vinodeTable, volume`io
      ensures TablesOk() && (dropped <==> old(vinodes)[v].ref == 1)
      ensures var node, t := old(vinodes)[v], old(vinodeTable.contents);
              && vinodes == (if dropped then old(vinodes) - {v} else old(vinodes)[v := node.(ref := node.ref - 1)])
              && vinodeTable.contents == (if dropped then t - {node.inum} else t)
              && Live(inodes[..]) == (if dropped then old(Live(inodes[..]))[node.inum := node.inode]
                  else old(Live(inodes[..])))
    {
      hide HashTables.TableOk, Live, Unused, Indexed, Beyond;
      SetVinode(v, vinodes[v].(ref := vinodes[v].ref - 1));
      dropped := vinodes[v].ref == 0;
      if dropped {
        WriteInode(vinodes[v].inum, Some(vinodes[v].inode));
        DropVinode(v);
      }
    }

    /** vfs_close: the last close of a dentry drops it; the vinode is written back and dropped with the
        last dentry that has it. */
    method CloseFile(d: int) returns (dropped: bool, ghost c: Call)
      requires Valid() && IsFile(View(), d) && dentries[d].opens > 0
      modifies this`dentries, this`vinodes, inodes, vinodeTable, dentryTable, volume`io
      ensures Valid() && c == Manage(Close(d), map[]) && Performs(old(DiskView()), c, DiskView())
      ensures dropped <==> old(dentries)[d].opens == 1 && RefSet(old(dentries), old(dentries)[d].vid) == {d}
    {
      hide VolInv, HashTables.TableOk, Live, UsedIn, Unused, Indexed, Performs, CanCall, RefSet;
      c := Manage(Close(d), map[]);
      ghost var v0 := DiskView();
      CloseCall(v0, d);
      LastRef(v0, d);
      CachedInode(v0, inodes[..], d);
      dropped := false;
      var v := dentries[d].vid;
      SetOpens(d, dentries[d].opens - 1);
      if dentries[d].opens == 0 {
        DropDentry(d);
        assert dentries == old(dentries) - {d};
        dropped := Release(v);
      }
    }

    /** rfs_link: one link more, the new entry, and the inode written back. The new dentry's reference is
        counted first. */
    method LinkNode(p: int, name: string, v: int) returns (ghost patch: map<int, Block>)
      requires volume.Valid() && TablesOk() && DirThere(p) && NameFits(name)
      requires vinodes[dentries[p].vid].inode.size + ENTRY <= BLKSIZE
      requires v in vinodes && v != dentries[p].vid && 0 <= vinodes[v].inum < inodes.Length && vinodes[v].inum < INUMS
      modifies this`vinodes, inodes, volume`io, volume.disk
      ensures TablesOk()
      ensures var dir, node := old(vinodes[dentries[p].vid]), old(vinodes[v]);
              var dir' := dir.inode.(size := dir.inode.size + ENTRY);
              var inode := node.inode.(nlinks := node.inode.nlinks + 1);
              && EntryAdded(old(volume.disk[..]), dir.inode, name, node.inum, patch)
              && volume.disk[..] == Patched(old(volume.disk[..]), patch)
              && vinodes == old(vinodes)[v := node.(inode := inode, ref := node.ref + 1)]
                                        [dentries[p].vid := dir.(inode := dir')]
              && Live(inodes[..]) == old(Live(inodes[..]))[dir.inum := dir'][node.inum := inode]
    {
      hide HashTables.TableOk, Live, Unused, Indexed, Beyond, EntryAdded, Patched, Fits, D.DirOk;
      var node := vinodes[v].(ref := vinodes[v].ref + 1);
      node := node.(inode := node.inode.(nlinks := node.inode.nlinks + 1));
      SetVinode(v, node);
      patch := AddName(p, name, node.inum);
      WriteInode(node.inum, Some(node.inode));
    }

    /** vfs_link and rfs_link, of a new name that was not found, in a directory with room: one link more,
        the new entry, and the inode written back. */
    method LinkFile(o: int, p: int, name: string) returns (d: int, ghost c: Call)
      requires Valid() && IsFile(View(), o) && IsDir(View(), p) && Key(vinodes[dentries[p].vid].inum, name) !in entries
      requires Room(View(), p) && NameFits(name)
      modifies this, inodes, dentryTable, volume`io, volume.disk
      ensures Valid() && Performs(old(DiskView()), c, DiskView())
      ensures c.Manage? && c.e == Link(o, p, name, d)
    {
      hide VolInv, HashTables.TableOk, Live, UsedIn, Unused, Indexed, Performs, CanCall, Cached, Beyond;
      hide EntryAdded, Patched, Fits, D.DirOk, Enabled;
      ghost var v0 := DiskView();
      PagesKnown(page, vinodes, dentries, vinodeTable.View(), dentryTable.View());
      LinkAll(v0, inodes[..], dentryTable.contents, o, p, name, page);
      var v := dentries[o].vid;
      ghost var patch := LinkNode(p, name, v);
      entries := entries[Key(vinodes[dentries[p].vid].inum, name) := vinodes[v].inum];
      d := PutDentry(Dentry(p, name, v, 0));
      c := Manage(Link(o, p, name, d), patch);
      LinkedInOrder(v0, View(), o, p, name, d, patch);
    }

    /** The loop over the blocks of a dead disk inode. */
    method FreeBlocks(blocks: seq<int>)
      requires forall i :: 0 <= i < |blocks| ==> FREE_OFFSET <= blocks[i] < FREE_OFFSET + volume.freemap.Length
      modifies volume.freemap
      ensures UsedIn(volume.freemap[..]) == old(UsedIn(volume.freemap[..])) - BlockSet(blocks)
    {
      hide UsedIn;
      var i := 0;
      while i < |blocks|
        invariant 0 <= i <= |blocks|
        invariant UsedIn(volume.freemap[..]) == old(UsedIn(volume.freemap[..])) - BlockSet(blocks[..i])
      {
        UsedAfter(volume.freemap[..], blocks[i], 0);
        volume.FreeBlock(blocks[i]);
        i := i + 1;
      }
      assert blocks[..i] == blocks;
    }

    /** rfs_unlink: one link less in the vinode and on disk, and at zero the disk inode and its blocks are
        freed. */
    method UnlinkOnDisk(n: int, v: int)
      requires TablesOk() && v in vinodes && n in Live(inodes[..])
      requires vinodes[v].inode.nlinks == Live(inodes[..])[n].nlinks
      requires forall b :: b in Live(inodes[..])[n].blocks ==> b in UsedIn(volume.freemap[..])
      modifies this`vinodes, inodes, volume.freemap, volume`io
      ensures TablesOk()
      ensures var node, live := old(vinodes)[v], old(Live(inodes[..]));
              var left := node.inode.nlinks - 1;
              && vinodes == old(vinodes)[v := node.(inode := node.inode.(nlinks := left))]
              && Live(inodes[..]) == (if left == 0 then live - {n} else live[n := live[n].(nlinks := left)])
              && UsedIn(volume.freemap[..]) ==
                   old(UsedIn(volume.freemap[..])) - (if left == 0 then BlockSet(live[n].blocks) else {})
    {
      hide HashTables.TableOk, Unused, Indexed, Beyond;
      var node := vinodes[v];
      var x := ReadInode(n);
      var dinode := x.value;
      assert node.inode.nlinks == dinode.nlinks;
      SetVinode(v, node.(inode := node.inode.(nlinks := node.inode.nlinks - 1)));
      dinode := dinode.(nlinks := vinodes[v].inode.nlinks);
      if dinode.nlinks == 0 {
        assert forall i :: 0 <= i < |dinode.blocks| ==> dinode.blocks[i] in dinode.blocks;
        FreeBlocks(dinode.blocks);
        WriteInode(n, None);
      } else {
        WriteInode(n, Some(dinode));
      }
    }

    /** rfs_unlink: entry `i` is cut out of the directory, which gets shorter in its vinode and on disk. */
    method RemoveName(p: int, name: string, i: nat) returns (ghost patch: map<int, Block>)
      requires volume.Valid() && TablesOk() && DirThere(p)
      requires var inode := vinodes[dentries[p].vid].inode;
               && (forall b :: b in inode.blocks ==> b in UsedIn(volume.freemap[..])) && (i + 1) * ENTRY <= inode.size
               && NameAt(Text(volume.disk[..], inode), i) == name
      modifies this`vinodes, inodes, volume`io, volume.disk, volume.freemap
      ensures TablesOk() && volume.freemap[..] == old(volume.freemap[..])
      ensures var node := old(vinodes[dentries[p].vid]);
              && EntryRemoved(old(volume.disk[..]), node.inode, name, patch)
              && volume.disk[..] == Patched(old(volume.disk[..]), patch) && ENTRY <= node.inode.size
              && var inode' := node.inode.(size := node.inode.size - ENTRY);
                 && vinodes == old(vinodes)[dentries[p].vid := node.(inode := inode')]
                 && Live(inodes[..]) == old(Live(inodes[..]))[node.inum := inode']
    {
      hide HashTables.TableOk, Live, Unused, Indexed, Beyond, Contents, EntryRemoved, Patched, D.Cut, NameAt;
      var v := dentries[p].vid;
      var node := vinodes[v];
      ghost var disk0 := volume.disk[..];
      BlocksMarked(volume.freemap[..], node.inode);
      var vi := NewVinode(node.inode);
      D.RemoveEntry(volume, vi, i);
      RemovedByEntry(disk0, node.inode, name, i, volume.disk[..], vi.View());
      patch := Rewritten(volume.disk[..], node.inode.blocks);
      var inode := node.inode.(size := vi.size);
      SetVinode(v, node.(inode := inode));
      WriteInode(node.inum, Some(inode));
    }

    /** The caches' part of unlink: the dentry goes, and the vinode too if it has no link left. */
    method Forget(d: int)
      requires TablesOk() && d in dentries && dentries[d].vid in vinodes
      requires vinodes[dentries[d].vid].inode.nlinks == 0 ==> vinodes[dentries[d].vid].ref == 1
      modifies this`dentries, this`vinodes, vinodeTable, dentryTable
      ensures TablesOk() && dentries == old(dentries) - {d}
      ensures var v, t := old(dentries)[d].vid, old(vinodeTable.contents);
              var node := old(vinodes)[v];
              && vinodes == (if node.inode.nlinks == 0 then old(vinodes) - {v}
                             else old(vinodes)[v := node.(ref := node.ref - 1)])
              && vinodeTable.contents == (if node.inode.nlinks == 0 then t - {node.inum} else t)
    {
      hide HashTables.TableOk, Unused, Indexed, Beyond;
      var v := dentries[d].vid;
      DropDentry(d);
      SetVinode(v, vinodes[v].(ref := vinodes[v].ref - 1));
      if vinodes[v].inode.nlinks == 0 {
        assert vinodes[v].ref == 0;
        DropVinode(v);
      }
    }

    /** What the code of unlink needs: the file's vinode and disk inode agree, the directory is another one,
        and entry `i` of it has the name. */
    ghost predicate MayUnlink(d: int, n: int, i: nat)
      reads this, inodes, volume, volume.disk, volume.freemap
      requires d in dentries && DirThere(dentries[d].parent)
    {
      var p, v := dentries[d].parent, dentries[d].vid;
      var dir, live := vinodes[dentries[p].vid].inode, Live(inodes[..]);
      && v in vinodes && v != dentries[p].vid && n in live && n != vinodes[dentries[p].vid].inum
      && vinodes[v].inode.nlinks == live[n].nlinks && (vinodes[v].inode.nlinks == 1 ==> vinodes[v].ref == 1)
      && (forall b :: b in live[n].blocks + dir.blocks ==> b in UsedIn(volume.freemap[..]))
      && (forall b :: b in dir.blocks ==> b !in live[n].blocks)
      && (i + 1) * ENTRY <= dir.size && NameAt(Text(volume.disk[..], dir), i) == dentries[d].name
    }

    /** The disk's part of unlink. */
    method CutLink(d: int, n: int, i: nat) returns (ghost patch: map<int, Block>)
      requires volume.Valid() && TablesOk() && d in dentries && DirThere(dentries[d].parent) && MayUnlink(d, n, i)
      modifies this`vinodes, inodes, volume`io, volume.disk, volume.freemap
      ensures TablesOk()
      ensures var v, live := dentries[d].vid, old(Live(inodes[..]));
              var pv := dentries[dentries[d].parent].vid;
              var dir, node := old(vinodes)[pv], old(vinodes)[v];
              var left := node.inode.nlinks - 1;
              && EntryRemoved(old(volume.disk[..]), dir.inode, dentries[d].name, patch)
              && volume.disk[..] == Patched(old(volume.disk[..]), patch) && ENTRY <= dir.inode.size
              && UsedIn(volume.freemap[..]) ==
                   old(UsedIn(volume.freemap[..])) - (if left == 0 then BlockSet(live[n].blocks) else {})
              && var dir' := dir.inode.(size := dir.inode.size - ENTRY);
                 && Live(inodes[..]) ==
                      (if left == 0 then live - {n} else live[n := live[n].(nlinks := left)])[dir.inum := dir']
                 && vinodes == old(vinodes)[v := node.(inode := node.inode.(nlinks := left))]
                                           [pv := dir.(inode := dir')]
    {
      hide HashTables.TableOk, Live, UsedIn, Unused, Indexed, Beyond, EntryRemoved, Patched, Fits, D.DirOk;
      hide NameAt, Text;
      var p, v := dentries[d].parent, dentries[d].vid;
      assert forall b :: b in vinodes[dentries[p].vid].inode.blocks ==>
          b in Live(inodes[..])[n].blocks + vinodes[dentries[p].vid].inode.blocks;
      UnlinkOnDisk(n, v);
      patch := RemoveName(p, dentries[d].name, i);
    }

    /** The disk's part of unlink, and then the caches'. */
    method UnlinkNode(d: int, n: int, i: nat) returns (ghost patch: map<int, Block>)
      requires volume.Valid() && TablesOk() && d in dentries && DirThere(dentries[d].parent) && MayUnlink(d, n, i)
      modifies this`vinodes, this`dentries, inodes, volume`io, volume.disk, volume.freemap, vinodeTable, dentryTable
      ensures TablesOk() && UnlinkParts(old(View()), View(), d, n)
      ensures var dir := old(vinodes[dentries[dentries[d].parent].vid].inode);
              && EntryRemoved(old(volume.disk[..]), dir, old(dentries)[d].name, patch)
              && volume.disk[..] == Patched(old(volume.disk[..]), patch)
    {
      hide HashTables.TableOk, Live, UsedIn, Unused, Indexed, Beyond, EntryRemoved, Patched, Fits, D.DirOk;
      hide NameAt, Text, BlockSet;
      patch := CutLink(d, n, i);
      Forget(d);
    }

    /** vfs_unlink and rfs_unlink of a name that no open file has. */
    method UnlinkClosed(d: int) returns (ghost c: Call)
      requires Valid() && IsFile(View(), d) && dentries[d].opens == 0
      modifies this, inodes, volume`io, volume.disk, volume.freemap, vinodeTable, dentryTable
      ensures Valid() && Performs(old(DiskView()), c, DiskView()) && c.Manage? && c.e == Unlink(d)
      ensures d !in dentries && Place(old(View()), d) !in entries
    {
      hide VolInv, HashTables.TableOk, Live, UsedIn, Unused, Indexed, Performs, CanCall, EntryRemoved, Patched, Fits;
      hide Lists, D.DirOk, Beyond, Text, NameAt, UnlinkParts;
      ghost var v0 := DiskView();
      UnlinkAll(v0, inodes[..], d);
      var n, i := FindName(dentries[d].parent, dentries[d].name);
      ghost var patch := UnlinkNode(d, n.value, i);
      PartsWithNames(v0.fs, View(), d, n.value, entries - {Place(v0.fs, d)});
      entries := entries - {Place(v0.fs, d)};
      c := Manage(Unlink(d), patch);
      UnlinkedInOrder(v0, View(), d, patch);
    }

    /** vfs_unlink and rfs_unlink, refused while the file is open under this name. The source's two
        assertions stand in UnlinkOnDisk and Forget. */
    method UnlinkFile(d: int) returns (done: bool, ghost c: Call)
      requires Valid() && IsFile(View(), d)
      modifies this, inodes, volume`io, volume.disk, volume.freemap, vinodeTable, dentryTable
      ensures Valid() && Performs(old(DiskView()), c, DiskView())
      ensures c.Manage? && c.e == Unlink(d) && (done <==> old(dentries)[d].opens == 0)
      ensures done ==> d !in dentries && Place(old(View()), d) !in entries
    {
      hide VolInv, HashTables.TableOk, Live, UsedIn, Unused, Indexed, Performs, CanCall;
      OpensKnown(DiskView(), d);
      done := dentries[d].opens == 0;
      c := Manage(Unlink(d), map[]);
      if done {
        c := UnlinkClosed(d);
      } else {
        UnlinkRefused(DiskView(), d);
      }
    }

    /** vfs_write and rfs_write on an open file. `ok` is false where the kernel panics. */
    method WriteFile(d: int, buf: seq<Byte>, offset: nat) returns (ok: bool, offset': nat, ghost c: Call)
      requires Valid() && IsFile(View(), d) && dentries[d].opens > 0 && offset + |buf| <= DIRECT * BLKSIZE
      modifies this`vinodes, volume`io, volume.disk, volume.freemap
      ensures var inode := old(vinodes[dentries[d].vid].inode);
              ok <==> && offset <= inode.size
                      && B.Needed(|inode.blocks|, offset, |buf|) <= B.FreeCount(old(volume.freemap[..]))
      ensures ok ==> Valid() && Performs(old(DiskView()), c, DiskView()) && offset' == offset + |buf|
      ensures ok ==> c.Put? && c.d == d && c.offset == offset && c.buf == buf && c.io == old(volume.io)
    {
      hide VolInv, HashTables.TableOk, Live, UsedIn, Unused, Indexed, CanCall, B.FreeCount, B.Grown, B.Needed, Contents;
      ghost var v0, free0, io0 := DiskView(), volume.freemap[..], volume.io;
      c := Manage(Open(d), map[]);
      CachedFits(v0, d);
      var v := dentries[d].vid;
      var node := vinodes[v];
      BlocksMarked(free0, node.inode);
      var vi := NewVinode(node.inode);
      ok, offset' := volume.Write(vi, buf, offset);
      if ok {
        ghost var g := vi.View();
        ghost var more := WriteCall(v0, d, io0, offset, buf, free0, volume.disk[..], volume.freemap[..], g);
        c := Put(d, offset, buf, io0, more, Rewritten(volume.disk[..], g.addrs[..g.blocks]));
        SetVinode(v, node.(inode := node.inode.(blocks := vi.addrs[..vi.blocks], size := vi.size)));
        CallKeepsVolInv(v0, c);
      }
    }

    /** vfs_read and rfs_read of an open file: the bytes that the writes of any run left there. */
    method ReadFile(d: int, len: nat, offset: nat) returns (ok: bool, text: seq<Byte>, offset': nat)
      requires Valid() && IsFile(View(), d) && offset < DIRECT * BLKSIZE
      modifies volume`io
      ensures Valid() && DiskView() == old(DiskView())
      ensures offset < vinodes[dentries[d].vid].inode.size ==> ok
      ensures ok ==>
                offset <= vinodes[dentries[d].vid].inode.size
                && Fits(volume.disk[..], vinodes[dentries[d].vid].inode)
      ensures ok ==> Reads(Text(volume.disk[..], vinodes[dentries[d].vid].inode), offset, len, text)
      ensures ok ==>
                var size := vinodes[dentries[d].vid].inode.size;
                offset' == if size < offset + len then size else offset + len
    {
      hide VolInv, HashTables.TableOk, Live, UsedIn, Unused, Indexed, Contents;
      CachedFits(DiskView(), d);
      var vi := NewVinode(vinodes[dentries[d].vid].inode);
      ok, text, offset' := volume.Read(vi, len, offset);
    }
  }
}
