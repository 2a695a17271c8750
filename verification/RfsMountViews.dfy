/** What the arrays, hash tables and disk blocks of a mounted volume stand for, and why the methods of
    RfsMount perform the calls of RfsContents. */
module RfsMountViews {
  import opened Basics
  import opened HashTables
  import opened RfsFile
  import B = RfsBlocks
  import P = Paths
  import opened RfsVolume
  import opened RfsOwnership
  import opened RfsContents
  import opened RfsNames
  import D = RfsDir

  /** RFS_BLKSIZE / RFS_INODESIZE * RFS_MAX_INODE_BLKNUM */
  const INODES: nat := 320

  /** The key of a dentry in its table. */
  function NameOf(x: Dentry): P.Key {
    P.Key(x.parent, x.name)
  }

  // ---------------------------------------------------------------- what the arrays stand for

  /** The disk inodes that are not R_FREE. */
  ghost function Live(inodes: seq<Option<Inode>>): map<int, Inode> {
    map n | 0 <= n < |inodes| && inodes[n].Some? :: inodes[n].value
  }

  /** The data blocks that the free map has as used. */
  ghost function UsedIn(free: seq<int>): set<int> {
    set b | FREE_OFFSET <= b < FREE_OFFSET + |free| && B.Marked(free, b, true)
  }

  lemma LiveAfter(inodes: seq<Option<Inode>>, n: nat, x: Option<Inode>)
    requires n < |inodes|
    ensures Live(inodes[n := x]) == match x case Some(inode) => Live(inodes)[n := inode] case None => Live(inodes) - {n}
  {
  }

  lemma UsedAfter(free: seq<int>, b: int, x: int)
    requires FREE_OFFSET <= b < FREE_OFFSET + |free|
    ensures UsedIn(free[b - FREE_OFFSET := x]) == if x != 0 then UsedIn(free) + {b} else UsedIn(free) - {b}
  {
  }

  lemma FormattedArrays(inodes: seq<Option<Inode>>, root: Inode, free: seq<int>)
    requires |inodes| > 0 && inodes[0] == Some(root) && (forall n :: 0 < n < |inodes| ==> inodes[n] == None)
    requires |free| > 0 && free[0] != 0 && (forall b :: 0 < b < |free| ==> free[b] == 0)
    ensures Live(inodes) == map[ROOT := root] && UsedIn(free) == {FREE_OFFSET}
  {
  }

  lemma FormattedVolume(disk: seq<Block>)
    requires InData(disk, FREE_OFFSET)
    ensures VolInv(FreshVolume(FREE_OFFSET, disk))
  {
    FreshHolds(FREE_OFFSET, disk);
  }

  /** vinode_hash_func */
  function VinodeHash(n: int): (h: int)
    ensures 0 <= h < SIZE
  {
    n % SIZE
  }

  // ---------------------------------------------------------------- what the dentry table holds

  /** The dentry table has every cached dentry under its parent and name, and nothing else. */
  ghost predicate Indexed(dentries: map<int, Dentry>, index: map<P.Key, int>) {
    && (forall d :: d in dentries ==> NameOf(dentries[d]) in index && index[NameOf(dentries[d])] == d)
    && (forall k :: k in index ==> index[k] in dentries && NameOf(dentries[index[k]]) == k)
  }

  lemma IndexedAdd(dentries: map<int, Dentry>, index: map<P.Key, int>, d: int, x: Dentry)
    requires Indexed(dentries, index) && d !in dentries && NameOf(x) !in index
    ensures Indexed(dentries[d := x], index[NameOf(x) := d])
  {
  }

  lemma IndexedDrop(dentries: map<int, Dentry>, index: map<P.Key, int>, d: int)
    requires Indexed(dentries, index) && d in dentries
    ensures Indexed(dentries - {d}, index - {NameOf(dentries[d])})
  {
  }

  lemma IndexedSame(dentries: map<int, Dentry>, index: map<P.Key, int>, d: int, x: Dentry)
    requires Indexed(dentries, index) && d in dentries && NameOf(x) == NameOf(dentries[d])
    ensures Indexed(dentries[d := x], index)
  {
  }

  lemma IndexedAt(dentries: map<int, Dentry>, index: map<P.Key, int>, k: P.Key)
    requires Indexed(dentries, index) && k in index
    ensures index[k] in dentries && NameOf(dentries[index[k]]) == k
  {
  }

  lemma IndexedCached(s: State, index: map<P.Key, int>, p: int, name: string)
    requires Indexed(s.dentries, index)
    ensures Cached(s, p, name) <==> P.Key(p, name) in index
  {
    if P.Key(p, name) in index {
      var d := index[P.Key(p, name)];
      assert d in s.dentries && s.dentries[d].parent == p && s.dentries[d].name == name;
    }
  }

  /** Page `x` and the pages after it are in no use; no page has a negative number, and the root has
      no parent. */
  ghost predicate Beyond<K, V>(x: int, vinodes: map<int, Vinode>, dentries: map<int, Dentry>, t: Table<int, int>,
                               u: Table<K, V>) {
    && x >= SIZE
    && (forall y :: y >= x ==> y !in vinodes && y !in dentries && Unused(t, y) && Unused(u, y))
    && (forall y :: y in dentries ==> y >= 0)
    && (0 in dentries ==> dentries[0].parent < 0)
  }

  ghost function Block0(inode: Inode): int {
    if inode.blocks == [] then 0 else inode.blocks[0]
  }

  lemma PagesKnown<K, V>(x: int, vinodes: map<int, Vinode>, dentries: map<int, Dentry>, t: Table<int, int>,
                         u: Table<K, V>)
    requires Beyond(x, vinodes, dentries, t, u)
    ensures x !in vinodes && x !in dentries && x + 1 !in dentries && (forall y :: y in dentries ==> y >= 0)
    ensures 0 in dentries ==> dentries[0].parent < 0
  {
  }

  /** A patch of nothing. */
  lemma NoPatch(disk: seq<Block>)
    ensures Patched(disk, map[]) == disk
  {
  }

  /** A cached name is a name in the directory. */
  lemma CachedIsEntry(v: Disked, index: map<P.Key, int>, p: int, name: string)
    requires VolInv(v) && Indexed(v.fs.dentries, index) && IsDir(v.fs, p) && p >= 0
    requires 0 in v.fs.dentries ==> v.fs.dentries[0].parent < 0
    ensures Cached(v.fs, p, name) <==> P.Key(p, name) in index
    ensures P.Key(p, name) in index ==> Key(Node(v.fs, p).inum, name) in v.fs.entries
  {
    hide RfsVolume.TableOk, AgreeOk, RefsOk, LinksOk, BlocksOk;
    IndexedCached(v.fs, index, p, name);
    if P.Key(p, name) in index {
      assert DentryOk(v.fs, index[P.Key(p, name)]);
    }
  }

  /** The inode that an entry names is on the disk, and its vinode is cached if the table has it. */
  lemma LookupFinds(v: Disked, inodes: seq<Option<Inode>>, key: Key)
    requires VolInv(v) && v.fs.dinodes == Live(inodes) && key in v.fs.entries
    ensures var n := v.fs.entries[key];
            && 0 <= n < |inodes| && inodes[n].Some? && n in v.fs.dinodes && v.fs.dinodes[n] == inodes[n].value
            && (n in v.fs.table ==> v.fs.table[n] in v.fs.vinodes)
  {
    hide BlocksOk, RefsOk, DentriesOk, AgreeOk;
  }

  lemma LookupCall(v: Disked, p: int, name: string, d: int, w: int)
    requires VolInv(v) && IsDir(v.fs, p) && d !in v.fs.dentries && w !in v.fs.vinodes
    ensures var v' := Disked(LookupStep(v.fs, p, name, d, w), v.disk);
            VolInv(v') && Performs(v, Manage(Lookup(p, name, d, w), map[]), v')
  {
    hide VolInv, LookupStep, Patched;
    NoPatch(v.disk);
    CallKeepsVolInv(v, Manage(Lookup(p, name, d, w), map[]));
  }

  /** Every part of the volume after create or mkdir. */
  lemma MakeState(s: State, kind: Kind, p: int, name: string, d: int, w: int, n: int, b: int)
    requires Inv(s) && Enabled(s, Make(kind, p, name, d, w, n, b))
    ensures var t, node, inode := Step(s, Make(kind, p, name, d, w, n, b)).state, Node(s, p), Inode(kind, 1, [b], 0);
            var inode' := node.inode.(size := node.inode.size + ENTRY);
            && t.dinodes == s.dinodes[n := inode][node.inum := inode'] && t.used == s.used + {b}
            && t.vinodes == s.vinodes[s.dentries[p].vid := node.(inode := inode')][w := Vinode(n, inode, 1)]
            && t.table == (if n in s.table then s.table else s.table[n := w])
            && t.dentries == s.dentries[d := Dentry(p, name, w, if kind == FileKind then 1 else 0)]
            && t.entries == s.entries[Key(node.inum, name) := n]
  {
    hide Inv, Cached;
    ParentStays(s, Make(kind, p, name, d, w, n, b));
  }

  /** A state with these parts is the one after create or mkdir. */
  lemma MadeInOrder(v: Disked, t: State, kind: Kind, p: int, name: string, d: int, w: int, n: int, b: int,
                    patch: map<int, Block>)
    requires VolInv(v) && Enabled(v.fs, Make(kind, p, name, d, w, n, b)) && InData(v.disk, b)
    requires EntryAdded(v.disk, Node(v.fs, p).inode, name, n, patch)
    requires var s, node, inode := v.fs, Node(v.fs, p), Inode(kind, 1, [b], 0);
             var inode' := node.inode.(size := node.inode.size + ENTRY);
             && t.dinodes == s.dinodes[n := inode][node.inum := inode'] && t.used == s.used + {b}
             && t.vinodes == s.vinodes[s.dentries[p].vid := node.(inode := inode')][w := Vinode(n, inode, 1)]
             && t.table == (if n in s.table then s.table else s.table[n := w])
             && t.dentries == s.dentries[d := Dentry(p, name, w, if kind == FileKind then 1 else 0)]
             && t.entries == s.entries[Key(node.inum, name) := n]
    ensures var v' := Disked(t, Patched(v.disk, patch));
            VolInv(v') && Performs(v, Manage(Make(kind, p, name, d, w, n, b), patch), v')
  {
    hide Inv, BlocksOk, LengthsOk, Fits, Text, Latest, Lists, EntryAdded, Cached, Resized, MakeStep, Patched, Enabled;
    MakeState(v.fs, kind, p, name, d, w, n, b);
    CallKeepsVolInv(v, Manage(Make(kind, p, name, d, w, n, b), patch));
  }

  /** Every part of the volume after link. */
  lemma LinkState(s: State, o: int, p: int, name: string, d: int)
    requires Inv(s) && Enabled(s, Link(o, p, name, d))
    ensures s.dentries[p].vid != s.dentries[o].vid
    ensures var t, dir, node := Step(s, Link(o, p, name, d)).state, Node(s, p), Node(s, o);
            var dir', inode := dir.inode.(size := dir.inode.size + ENTRY), node.inode.(nlinks := node.inode.nlinks + 1);
            && t.dinodes == s.dinodes[node.inum := inode][dir.inum := dir'] && t.used == s.used && t.table == s.table
            && t.vinodes == s.vinodes[s.dentries[o].vid := node.(inode := inode, ref := node.ref + 1)]
                                     [s.dentries[p].vid := dir.(inode := dir')]
            && t.dentries == s.dentries[d := Dentry(p, name, s.dentries[o].vid, 0)]
            && t.entries == s.entries[Key(dir.inum, name) := node.inum]
  {
    hide Inv, Cached;
    ParentStays(s, Link(o, p, name, d));
  }

  lemma ApartInLink(v: Disked, o: int, p: int)
    requires VolInv(v) && IsFile(v.fs, o) && IsDir(v.fs, p)
    ensures v.fs.dentries[o].vid != v.fs.dentries[p].vid && Node(v.fs, o).inum != Node(v.fs, p).inum
    ensures 0 <= Node(v.fs, o).inum < INUMS
  {
    hide BlocksOk, LengthsOk, Latest, Lists, RefsOk, LinksOk, DentriesOk, Fits;
    LatestIsNode(v.fs, o);
    LatestIsNode(v.fs, p);
    assert NodeFits(v, Node(v.fs, o).inum);
  }

  /** All that the code of link relies on. */
  lemma LinkAll(v: Disked, inodes: seq<Option<Inode>>, index: map<P.Key, int>, o: int, p: int, name: string, d: int)
    requires VolInv(v) && v.fs.dinodes == Live(inodes) && Indexed(v.fs.dentries, index)
    requires IsFile(v.fs, o) && IsDir(v.fs, p) && Key(Node(v.fs, p).inum, name) !in v.fs.entries
    requires Room(v.fs, p) && NameFits(name) && d !in v.fs.dentries && p >= 0
    requires 0 in v.fs.dentries ==> v.fs.dentries[0].parent < 0
    ensures Enabled(v.fs, Link(o, p, name, d)) && P.Key(p, name) !in index
    ensures v.fs.dentries[o].vid != v.fs.dentries[p].vid && Node(v.fs, o).inum != Node(v.fs, p).inum
    ensures 0 <= Node(v.fs, o).inum < INUMS && Node(v.fs, o).inum < |inodes| && 0 <= Node(v.fs, p).inum < |inodes|
    ensures var dir := Node(v.fs, p).inode; Fits(v.disk, dir) && D.DirOk(v.disk, FileOf(dir)) && |dir.blocks| == 1
  {
    hide VolInv, Fits, D.DirOk, Lists, Live, Indexed, Cached;
    CachedIsEntry(v, index, p, name);
    CachedInode(v, inodes, o);
    DirReady(v, inodes, p);
    ApartInLink(v, o, p);
  }

  /** `t` has these parts, for a link to the file of `o` in directory `p`. */
  ghost predicate LinkParts(s: State, t: State, o: int, p: int, name: string, d: int)
    requires Backed(s, o) && Backed(s, p)
  {
    var dir, node := Node(s, p), Node(s, o);
    var dir' := dir.inode.(size := dir.inode.size + ENTRY);
    var inode := node.inode.(nlinks := node.inode.nlinks + 1);
    && t.dinodes == s.dinodes[dir.inum := dir'][node.inum := inode] && t.used == s.used && t.table == s.table
    && t.vinodes == s.vinodes[s.dentries[o].vid := node.(inode := inode, ref := node.ref + 1)]
                             [s.dentries[p].vid := dir.(inode := dir')]
    && t.dentries == s.dentries[d := Dentry(p, name, s.dentries[o].vid, 0)]
    && t.entries == s.entries[Key(dir.inum, name) := node.inum]
  }

  /** A state with these parts is the one after link. */
  lemma LinkedInOrder(v: Disked, t: State, o: int, p: int, name: string, d: int, patch: map<int, Block>)
    requires Enabled(v.fs, Link(o, p, name, d)) && LinkParts(v.fs, t, o, p, name, d) && VolInv(v)
    requires EntryAdded(v.disk, Node(v.fs, p).inode, name, Node(v.fs, o).inum, patch)
    ensures var v' := Disked(t, Patched(v.disk, patch));
            VolInv(v') && Performs(v, Manage(Link(o, p, name, d), patch), v')
  {
    hide Inv, BlocksOk, LengthsOk, Fits, Text, Latest, Lists, EntryAdded, Cached, Resized, LinkStep, Patched;
    ApartInLink(v, o, p);
    LinkState(v.fs, o, p, name, d);
    CallKeepsVolInv(v, Manage(Link(o, p, name, d), patch));
    assert t == Step(v.fs, Link(o, p, name, d)).state;
  }

  /** Every part of the volume after an unlink that is not refused. */
  lemma UnlinkState(v: Disked, d: int)
    requires VolInv(v) && IsFile(v.fs, d) && v.fs.dentries[d].opens == 0
    ensures Enabled(v.fs, Unlink(d)) && Step(v.fs, Unlink(d)).Done? && UnlinkStep(v.fs, d).Done?
    ensures var s, p := v.fs, v.fs.dentries[d].parent;
            && Backed(s, p) && s.dentries[p].vid != s.dentries[d].vid && d != p && ENTRY <= Node(s, p).inode.size
            && Node(s, p).inum != Node(s, d).inum
            && var t, core, dir := Step(s, Unlink(d)).state, UnlinkStep(s, d).state, Node(s, p);
               var dir' := dir.inode.(size := dir.inode.size - ENTRY);
               && t.dinodes == core.dinodes[dir.inum := dir'] && t.used == core.used && t.table == core.table
               && t.vinodes == core.vinodes[s.dentries[p].vid := dir.(inode := dir')]
               && t.dentries == core.dentries && t.entries == core.entries
  {
    hide BlocksOk, LengthsOk, Fits, Text, Latest, Lists, RfsVolume.TableOk, AgreeOk, RefsOk, LinksOk, UnlinkStep;
    assert DentryOk(v.fs, d);
    UnlinkKeepsInv(v.fs, d);
    UnlinkKeepsFiles(v.fs, d);
    ParentStays(v.fs, Unlink(d));
    UnlinkEntries(v.fs, d);
    assert Place(v.fs, d) !in UnlinkStep(v.fs, d).state.entries;
    LatestIsNode(v.fs, d);
    LatestIsNode(v.fs, v.fs.dentries[d].parent);
  }

  lemma UnlinkEntries(s: State, d: int)
    requires Inv(s) && Enabled(s, Unlink(d)) && UnlinkStep(s, d).Done? && s.dentries[d].opens == 0
    ensures Place(s, d) in s.entries && UnlinkStep(s, d).state.entries == s.entries - {Place(s, d)}
    ensures UnlinkStep(s, d).state.dentries == s.dentries - {d}
  {
    hide Inv;
    UnlinkFinds(s, d);
  }

  /** `t` has these parts, for an unlink of dentry `d` with inode `n`; the names are left to the caller. */
  ghost predicate UnlinkParts(s: State, t: State, d: int, n: int)
    requires Backed(s, d) && Backed(s, s.dentries[d].parent)
  {
    var p, node := s.dentries[d].parent, Node(s, d);
    var dir, left, vid := Node(s, p), node.inode.nlinks - 1, s.dentries[d].vid;
    && n in s.dinodes && ENTRY <= dir.inode.size && t.dentries == s.dentries - {d}
    && t.used == s.used - (if left == 0 then BlockSet(s.dinodes[n].blocks) else {})
    && t.table == (if left == 0 then s.table - {node.inum} else s.table)
    && var dir' := dir.inode.(size := dir.inode.size - ENTRY);
       var vinodes := s.vinodes[s.dentries[p].vid := dir.(inode := dir')];
       && t.dinodes == (if left == 0 then s.dinodes - {n}
                        else s.dinodes[n := s.dinodes[n].(nlinks := left)])[dir.inum := dir']
       && t.vinodes == if left == 0 then vinodes - {vid}
                       else vinodes[vid := node.(inode := node.inode.(nlinks := left), ref := node.ref - 1)]
  }

  lemma PartsWithNames(s: State, t: State, d: int, n: int, names: map<Key, int>)
    requires Backed(s, d) && Backed(s, s.dentries[d].parent) && UnlinkParts(s, t, d, n)
    ensures UnlinkParts(s, t.(entries := names), d, n) && t.dentries == s.dentries - {d}
  {
  }

  lemma UnlinkedIs(v: Disked, t: State, d: int)
    requires IsFile(v.fs, d) && v.fs.dentries[d].opens == 0 && IsDir(v.fs, v.fs.dentries[d].parent)
    requires UnlinkParts(v.fs, t, d, Node(v.fs, d).inum) && t.entries == v.fs.entries - {Place(v.fs, d)}
    requires VolInv(v)
    ensures Enabled(v.fs, Unlink(d)) && Step(v.fs, Unlink(d)) == Done(t)
  {
    hide VolInv, Resized, BlockSet;
    UnlinkState(v, d);
    UnlinkReady(v, d);
    assert t == Step(v.fs, Unlink(d)).state;
  }

  /** A state with these parts is the one after unlink. */
  lemma UnlinkedInOrder(v: Disked, t: State, d: int, patch: map<int, Block>)
    requires IsFile(v.fs, d) && v.fs.dentries[d].opens == 0 && IsDir(v.fs, v.fs.dentries[d].parent)
    requires UnlinkParts(v.fs, t, d, Node(v.fs, d).inum) && t.entries == v.fs.entries - {Place(v.fs, d)}
    requires EntryRemoved(v.disk, Node(v.fs, v.fs.dentries[d].parent).inode, v.fs.dentries[d].name, patch)
    requires VolInv(v)
    ensures var v' := Disked(t, Patched(v.disk, patch));
            VolInv(v') && Performs(v, Manage(Unlink(d), patch), v')
  {
    hide VolInv, EntryRemoved, Patched, UnlinkParts, Step;
    UnlinkedIs(v, t, d);
    UnlinkReady(v, d);
    CallKeepsVolInv(v, Manage(Unlink(d), patch));
  }

  // ---------------------------------------------------------------- directories

  /** What a cached directory is on the disk: an inode that agrees with its vinode, one block of its own,
      and entries that list its part of the names. */
  lemma DirReady(v: Disked, inodes: seq<Option<Inode>>, p: int)
    requires VolInv(v) && v.fs.dinodes == Live(inodes) && IsDir(v.fs, p)
    ensures var q, inode := Node(v.fs, p).inum, Node(v.fs, p).inode;
            && 0 <= q < |inodes| && inodes[q] == Some(inode) && Fits(v.disk, inode) && |inode.blocks| == 1
            && D.DirOk(v.disk, FileOf(inode)) && Lists(Text(v.disk, inode), q, v.fs.entries)
            && (forall b :: b in inode.blocks ==> b in v.fs.used)
  {
    hide RefsOk, LinksOk, DentriesOk, Fits, Cur, Lists, Listed, BlocksOk, Text;
    LatestIsNode(v.fs, p);
    var q := Node(v.fs, p).inum;
    assert Agrees(v.fs.dinodes[q], Node(v.fs, p).inode);
    assert LengthOk(v.fs, q) && NodeFits(v, q);
    DirBytes(v.disk, Node(v.fs, p).inode, q, v.fs.entries);
    BlocksUsed(v.fs, p);
  }

  lemma DirBytes(disk: seq<Block>, inode: Inode, q: int, entries: map<Key, int>)
    requires Fits(disk, inode) && |inode.blocks| == 1 && inode.size <= BLKSIZE
    requires Lists(Text(disk, inode), q, entries)
    ensures D.DirOk(disk, FileOf(inode))
  {
  }

  lemma BlocksUsed(s: State, p: int)
    requires Inv(s) && BlocksOk(s) && Backed(s, p)
    ensures forall b :: b in Node(s, p).inode.blocks ==> b in s.used
  {
    hide Inv, Cur;
    CurOf(s, p);
    forall b | b in Node(s, p).inode.blocks
      ensures b in s.used
    {
      assert Owns(s, Node(s, p).inum, b);
    }
  }

  /** What rfs_add_direntry did, as a patch. */
  lemma AddedByEntry(disk0: seq<Block>, inode: Inode, name: string, m: nat, disk: seq<Block>, g: File, was: seq<Byte>)
    requires Fits(disk0, inode) && inode.size < |inode.blocks| * BLKSIZE && NameFits(name) && m < INUMS
    requires FileOk(disk, g) && g.addrs == FileOf(inode).addrs && g.blocks == |inode.blocks| && |was| == ENTRY
    requires Contents(disk, g) == Text(disk0, inode) + D.Entry(was, m, Coded(name))
    requires |disk| == |disk0|
    requires forall b :: 0 <= b < |disk| && b != g.addrs[inode.size / BLKSIZE] ==> disk[b] == disk0[b]
    ensures var patch := Rewritten(disk, inode.blocks);
            EntryAdded(disk0, inode, name, m, patch) && Patched(disk0, patch) == disk && g.size == inode.size + ENTRY
  {
    hide Contents, Text, Patched, Coded, D.Entry;
    var k := inode.size / BLKSIZE;
    assert g.addrs[k] == inode.blocks[k] && inode.blocks[k] in inode.blocks;
    RewrittenIs(disk0, disk, inode.blocks);
    SameText(disk, g, inode.(size := g.size));
    assert g.addrs[..g.blocks] == inode.blocks;
  }

  /** What rfs_unlink did to the directory, as a patch. */
  lemma RemovedByEntry(disk0: seq<Block>, inode: Inode, name: string, i: nat, disk: seq<Block>, g: File)
    requires Fits(disk0, inode) && (i + 1) * ENTRY <= inode.size && NameAt(Text(disk0, inode), i) == name
    requires FileOk(disk, g) && g.addrs == FileOf(inode).addrs && g.blocks == |inode.blocks|
    requires Contents(disk, g) == D.Cut(Text(disk0, inode), i * ENTRY) && |disk| == |disk0|
    requires forall b :: 0 <= b < |disk| && b !in g.addrs[..g.blocks] ==> disk[b] == disk0[b]
    ensures var patch := Rewritten(disk, inode.blocks);
            EntryRemoved(disk0, inode, name, patch) && Patched(disk0, patch) == disk && g.size == inode.size - ENTRY
  {
    hide Contents, Text, Patched, NameAt, D.Cut;
    assert g.addrs[..g.blocks] == inode.blocks;
    RewrittenIs(disk0, disk, inode.blocks);
    SameText(disk, g, inode.(size := g.size));
  }

  // ---------------------------------------------------------------- inodes and blocks

  /** The first block of each inode in `ns`. */
  ghost function FirstBlocks(v: Disked, ns: set<int>): set<int>
    requires VolInv(v) && ns <= v.fs.dinodes.Keys
  {
    set n | n in ns :: Latest(v.fs, n).blocks[0]
  }

  /** Different inodes have different first blocks, and these are marked used. */
  lemma {:induction false} FirstBlocksDiffer(v: Disked, ns: set<int>)
    requires VolInv(v) && ns <= v.fs.dinodes.Keys
    ensures |FirstBlocks(v, ns)| == |ns| && FirstBlocks(v, ns) <= v.fs.used
    decreases |ns|
  {
    hide Inv, Latest, Fits;
    if ns != {} {
      var n := Member(ns);
      var b, rest := Latest(v.fs, n).blocks[0], FirstBlocks(v, ns - {n});
      FirstBlocksDiffer(v, ns - {n});
      LatestOwns(v.fs, n, b);
      if b in rest {
        var m :| m in ns - {n} && Latest(v.fs, m).blocks[0] == b;
        LatestOwns(v.fs, m, b);
      }
      assert FirstBlocks(v, ns) == rest + {b};
    }
  }

  /** The `n` numbers from `lo` on. */
  ghost function Range(lo: int, n: nat): (r: set<int>)
    ensures |r| == n && forall b :: b in r <==> lo <= b < lo + n
  {
    if n == 0 then {} else Range(lo, n - 1) + {lo + n - 1}
  }

  lemma SubsetSize(a: set<int>, b: set<int>)
    requires a <= b
    ensures |a| <= |b|
  {
    assert b == a + (b - a);
  }

  /** With more inodes than data blocks, some inode is free. */
  lemma InodeLeft(v: Disked, inodes: seq<Option<Inode>>, free: seq<int>)
    requires VolInv(v) && v.fs.dinodes == Live(inodes) && v.fs.used == UsedIn(free) && |free| < |inodes|
    ensures None in inodes
  {
    hide VolInv, FirstBlocks;
    var ns := v.fs.dinodes.Keys;
    FirstBlocksDiffer(v, ns);
    SubsetSize(FirstBlocks(v, ns), v.fs.used);
    SubsetSize(v.fs.used, Range(FREE_OFFSET, |free|));
    if None !in inodes {
      AllLive(inodes);
    }
  }

  lemma AllLive(inodes: seq<Option<Inode>>)
    requires None !in inodes
    ensures |Live(inodes).Keys| == |inodes|
  {
    assert forall n :: 0 <= n < |inodes| ==> inodes[n] in inodes;
    assert Live(inodes).Keys == Range(0, |inodes|);
  }

  /** A second vinode for the root's inode, which the table does not have, takes the volume out of order. */
  lemma SecondRoot(s: State, w: int)
    requires w in s.vinodes && s.vinodes[w].inum == ROOT && ROOT in s.table && s.table[ROOT] != w
    ensures !Inv(s)
  {
  }

  lemma RootIsCached(v: Disked)
    requires VolInv(v)
    ensures ROOT in v.fs.table && v.fs.table[ROOT] in v.fs.vinodes
  {
    hide BlocksOk, RefsOk, LinksOk, AgreeOk, LengthsOk;
    assert DentryOk(v.fs, 0);
  }

  lemma OpenCall(v: Disked, d: int)
    requires VolInv(v) && IsFile(v.fs, d)
    ensures var v' := Disked(OpenStep(v.fs, d), v.disk); VolInv(v') && Performs(v, Manage(Open(d), map[]), v')
  {
    hide VolInv, OpenStep, Patched;
    NoPatch(v.disk);
    CallKeepsVolInv(v, Manage(Open(d), map[]));
  }

  lemma CloseCall(v: Disked, d: int)
    requires VolInv(v) && IsFile(v.fs, d) && v.fs.dentries[d].opens > 0
    ensures var v' := Disked(CloseStep(v.fs, d), v.disk); VolInv(v') && Performs(v, Manage(Close(d), map[]), v')
  {
    hide VolInv, CloseStep, Patched;
    NoPatch(v.disk);
    CallKeepsVolInv(v, Manage(Close(d), map[]));
  }

  lemma UnlinkRefused(v: Disked, d: int)
    requires VolInv(v) && IsFile(v.fs, d) && v.fs.dentries[d].opens > 0
    ensures Performs(v, Manage(Unlink(d), map[]), v)
  {
    hide UnlinkStep, Patched, BlocksOk, RfsVolume.TableOk, AgreeOk, LinksOk;
    NoPatch(v.disk);
    assert DentryOk(v.fs, d);
    UnlinkIsSafe(v.fs, d);
  }

  /** The inode of a cached vinode is in the disk's inode array, and the table has it. */
  lemma CachedInode(v: Disked, inodes: seq<Option<Inode>>, d: int)
    requires VolInv(v) && v.fs.dinodes == Live(inodes) && Backed(v.fs, d)
    ensures var n := Node(v.fs, d).inum; 0 <= n < |inodes| && inodes[n].Some? && n in v.fs.dinodes
  {
    hide BlocksOk, RefsOk, DentriesOk, LinksOk, AgreeOk;
  }

  lemma OpensKnown(v: Disked, d: int)
    requires VolInv(v) && d in v.fs.dentries
    ensures v.fs.dentries[d].opens >= 0
  {
    hide BlocksOk, LengthsOk, Latest, Lists, LinksOk, DentriesOk, AgreeOk, RfsVolume.TableOk;
  }

  /** The blocks of the directory are not those of the file. */
  lemma UnlinkApart(v: Disked, d: int, p: int)
    requires VolInv(v) && IsFile(v.fs, d) && IsDir(v.fs, p)
    ensures Node(v.fs, d).inum in v.fs.dinodes
    ensures forall b :: b in Node(v.fs, p).inode.blocks ==> b !in v.fs.dinodes[Node(v.fs, d).inum].blocks
  {
    hide BlocksOk, LengthsOk, Latest, Lists, RefsOk, LinksOk, DentriesOk, Fits, NodeFits;
    ApartInLink(v, d, p);
    LatestIsNode(v.fs, d);
    LatestIsNode(v.fs, p);
    var n, q := Node(v.fs, d).inum, Node(v.fs, p).inum;
    assert Agrees(v.fs.dinodes[n], Node(v.fs, d).inode);
    forall b | b in Node(v.fs, p).inode.blocks
      ensures b !in v.fs.dinodes[n].blocks
    {
      BlocksApart(v.fs, q, n, b);
    }
  }

  /** What unlink finds: the entry, the disk inode with the same link count, and blocks marked used. */
  lemma UnlinkReady(v: Disked, d: int)
    requires VolInv(v) && IsFile(v.fs, d) && v.fs.dentries[d].opens == 0
    ensures IsDir(v.fs, v.fs.dentries[d].parent)
    ensures var key, n := Place(v.fs, d), Node(v.fs, d).inum;
            && key in v.fs.entries && v.fs.entries[key] == n && n in v.fs.dinodes
            && Node(v.fs, d).inode.nlinks == v.fs.dinodes[n].nlinks
            && (forall b :: b in v.fs.dinodes[n].blocks ==> b in v.fs.used)
            && (Node(v.fs, d).inode.nlinks == 1 ==> Node(v.fs, d).ref == 1)
  {
    hide RfsVolume.TableOk, AgreeOk, RefsOk, LinksOk, UnlinkStep, BlocksOk, LengthsOk;
    assert DentryOk(v.fs, d);
    UnlinkFinds(v.fs, d);
    UnlinkIsSafe(v.fs, d);
    LastLink(v.fs, d);
    CurOf(v.fs, d);
    BlocksUsed(v.fs, d);
  }

  /** All that the code of unlink relies on. */
  lemma UnlinkAll(v: Disked, inodes: seq<Option<Inode>>, d: int)
    requires VolInv(v) && v.fs.dinodes == Live(inodes) && IsFile(v.fs, d) && v.fs.dentries[d].opens == 0
    ensures var s, p, n := v.fs, v.fs.dentries[d].parent, Node(v.fs, d).inum;
            && IsDir(s, p) && s.dentries[p].vid != s.dentries[d].vid && 0 <= Node(s, p).inum < |inodes|
            && Place(s, d) in s.entries && s.entries[Place(s, d)] == n && n in s.dinodes && n != Node(s, p).inum
            && Node(s, d).inode.nlinks == s.dinodes[n].nlinks && (s.dinodes[n].nlinks == 1 ==> Node(s, d).ref == 1)
            && IsBytes(s.dentries[d].name)
            && var dir := Node(s, p).inode;
               && Fits(v.disk, dir) && D.DirOk(v.disk, FileOf(dir)) && |dir.blocks| == 1
               && (forall b :: b in s.dinodes[n].blocks + dir.blocks ==> b in s.used)
               && (forall b :: b in dir.blocks ==> b !in s.dinodes[n].blocks)
  {
    hide VolInv, Fits, D.DirOk, Lists, Live, Text;
    UnlinkReady(v, d);
    var p := v.fs.dentries[d].parent;
    DirReady(v, inodes, p);
    ListedIsBytes(Text(v.disk, Node(v.fs, p).inode), Node(v.fs, p).inum, v.fs.entries, Place(v.fs, d));
    UnlinkApart(v, d, v.fs.dentries[d].parent);
    ApartInLink(v, d, v.fs.dentries[d].parent);
  }

  lemma LastLink(s: State, d: int)
    requires Inv(s) && Enabled(s, Unlink(d)) && UnlinkStep(s, d).Done?
    ensures s.dentries[d].opens == 0 && Node(s, d).inode.nlinks == 1 ==> Node(s, d).ref == 1
  {
    hide Inv;
    UnlinkFinds(s, d);
  }

  /** An open or cached file has its bytes in blocks that the free map has as used. */
  lemma CachedFits(v: Disked, d: int)
    requires VolInv(v) && IsFile(v.fs, d)
    ensures Fits(v.disk, Node(v.fs, d).inode)
    ensures forall b :: b in Node(v.fs, d).inode.blocks ==> b in v.fs.used
  {
    hide RefsOk, LinksOk, DentriesOk, Fits, Cur;
    var n := Node(v.fs, d).inum;
    CurOf(v.fs, d);
    assert Agrees(v.fs.dinodes[n], Node(v.fs, d).inode);
    assert IsFileNode(v.fs, n) && Latest(v.fs, n) == Node(v.fs, d).inode;
    forall b | b in Node(v.fs, d).inode.blocks
      ensures b in v.fs.used
    {
      assert Owns(v.fs, n, b);
    }
  }

  lemma BlocksMarked(free: seq<int>, inode: Inode)
    requires |inode.blocks| <= DIRECT && forall b :: b in inode.blocks ==> b in UsedIn(free)
    ensures var f := FileOf(inode); B.Owned(free, f.addrs, f.blocks)
  {
    assert forall i :: 0 <= i < |inode.blocks| ==>
        FileOf(inode).addrs[i] == inode.blocks[i] && inode.blocks[i] in inode.blocks;
  }

  // ---------------------------------------------------------------- writes

  /** A file's bytes depend on the addresses of its blocks only. */
  lemma SameText(disk: seq<Block>, f: File, inode: Inode)
    requires FileOk(disk, f) && inode.blocks == f.addrs[..f.blocks] && inode.size == f.size
    ensures Fits(disk, inode) && Text(disk, inode) == Contents(disk, f)
  {
    var g := FileOf(inode);
    assert forall i :: 0 <= i < f.blocks ==> g.addrs[i] == inode.blocks[i] == f.addrs[i];
    var t, u := Text(disk, inode), Contents(disk, f);
    forall x | 0 <= x < f.size
      ensures t[x] == u[x]
    {
      assert x / BLKSIZE < f.blocks;
    }
  }

  ghost function Rewritten(disk: seq<Block>, blocks: seq<int>): map<int, Block> {
    map b | b in blocks && 0 <= b < |disk| :: disk[b]
  }

  /** The new contents of a file's blocks are all that a write changes. */
  lemma RewrittenIs(disk0: seq<Block>, disk: seq<Block>, blocks: seq<int>)
    requires |disk| == |disk0| && forall b :: 0 <= b < |disk| && b !in blocks ==> disk[b] == disk0[b]
    ensures Patched(disk0, Rewritten(disk, blocks)) == disk && Rewritten(disk, blocks).Keys <= BlockSet(blocks)
  {
  }

  /** The free map after a write. */
  lemma GrownUsed(disk0: seq<Block>, free0: seq<int>, f: File, disk: seq<Block>, free: seq<int>, addrs: seq<int>,
                  blocks: nat)
    requires B.Grown(disk0, free0, f, disk, free, addrs, blocks)
    ensures var more := addrs[f.blocks..blocks];
            UsedIn(free) == UsedIn(free0) + BlockSet(more) && forall b :: b in more ==> b !in UsedIn(free0)
  {
    hide B.FreeCount;
    var more := addrs[f.blocks..blocks];
    forall b | b in more
      ensures b in UsedIn(free) && b !in UsedIn(free0)
    {
      var i :| 0 <= i < |more| && more[i] == b;
      assert addrs[f.blocks + i] == b;
      assert B.Marked(free0, addrs[f.blocks + i], false) && B.Marked(free, addrs[f.blocks + i], true);
    }
    forall b
      ensures b in UsedIn(free) <==> b in UsedIn(free0) || b in more
    {
      if FREE_OFFSET <= b < FREE_OFFSET + |free| {
        var k := b - FREE_OFFSET;
        assert free[k] != free0[k] ==> free[k] == 1 && k + FREE_OFFSET in addrs[f.blocks..blocks];
        assert B.Marked(free, b, true) <==> free[k] != 0;
        assert B.Marked(free0, b, true) <==> free0[k] != 0;
      }
    }
  }

  /** The call that a finished write is. */
  lemma WriteCall(v: Disked, d: int, io: Block, offset: nat, buf: seq<Byte>, free0: seq<int>, disk: seq<Block>,
                  free: seq<int>, g: File)
    returns (more: seq<int>)
    requires VolInv(v) && IsFile(v.fs, d) && v.fs.dentries[d].opens > 0 && v.fs.used == UsedIn(free0)
    requires Fits(v.disk, Node(v.fs, d).inode) && offset <= Node(v.fs, d).inode.size && FileOk(disk, g)
    requires var inode := Node(v.fs, d).inode;
             && B.Grown(v.disk, free0, FileOf(inode), disk, free, g.addrs, g.blocks)
             && g.addrs[..|inode.blocks|] == inode.blocks
             && g.blocks == |inode.blocks| + B.Needed(|inode.blocks|, offset, |buf|)
             && Contents(disk, g) == Written(io, Text(v.disk, inode), offset, buf)
    ensures UsedIn(free) == v.fs.used + BlockSet(more)
    ensures var inode := Node(v.fs, d).inode;
            Longer(inode, more, offset + |buf|) == inode.(blocks := g.addrs[..g.blocks], size := g.size)
    ensures var c := Put(d, offset, buf, io, more, Rewritten(disk, g.addrs[..g.blocks]));
            && CanCall(v, c) && Patched(v.disk, c.patch) == disk
  {
    hide VolInv, Patched, UsedIn, Written, Fits, Text, Contents, B.FreeCount, Rewritten, Wrote, Fresh;
    var inode, blocks := Node(v.fs, d).inode, g.addrs[..g.blocks];
    more := g.addrs[|inode.blocks|..g.blocks];
    assert blocks == inode.blocks + more;
    GrownUsed(v.disk, free0, FileOf(inode), disk, free, g.addrs, g.blocks);
    MoreIsFresh(v.fs, v.disk, free0, FileOf(inode), disk, free, g);
    RewrittenIs(v.disk, disk, blocks);
    hide B.Grown, FileOk;
    WroteIs(v.disk, inode, offset, buf, io, more, disk, g);
  }

  lemma MoreIsFresh(s: State, disk0: seq<Block>, free0: seq<int>, f: File, disk: seq<Block>, free: seq<int>, g: File)
    requires B.Grown(disk0, free0, f, disk, free, g.addrs, g.blocks) && s.used == UsedIn(free0) && FileOk(disk, g)
    ensures Fresh(s, g.addrs[f.blocks..g.blocks])
  {
    hide UsedIn, B.FreeCount;
    GrownUsed(disk0, free0, f, disk, free, g.addrs, g.blocks);
    var more := g.addrs[f.blocks..g.blocks];
    assert forall i :: 0 <= i < |more| ==> more[i] in more && more[i] == g.addrs[f.blocks + i];
  }

  lemma WroteIs(disk0: seq<Block>, inode: Inode, offset: nat, buf: seq<Byte>, io: Block, more: seq<int>,
                disk: seq<Block>, g: File)
    requires Fits(disk0, inode) && offset <= inode.size && FileOk(disk, g) && g.addrs[..g.blocks] == inode.blocks + more
    requires |more| == B.Needed(|inode.blocks|, offset, |buf|)
    requires Contents(disk, g) == Written(io, Text(disk0, inode), offset, buf)
    requires var patch := Rewritten(disk, g.addrs[..g.blocks]);
             Patched(disk0, patch) == disk && patch.Keys <= BlockSet(inode.blocks + more)
    ensures Wrote(disk0, inode, offset, buf, io, more, Rewritten(disk, g.addrs[..g.blocks]))
    ensures Longer(inode, more, offset + |buf|) == inode.(blocks := g.addrs[..g.blocks], size := g.size)
  {
    hide Written, Fits, Contents, Rewritten, Patched, Text;
    SameText(disk, g, inode.(blocks := g.addrs[..g.blocks], size := g.size));
    WrittenLength(io, Text(disk0, inode), offset, buf);
    SizesAre(disk0, inode, disk, g);
  }

  lemma SizesAre(disk0: seq<Block>, inode: Inode, disk: seq<Block>, g: File)
    requires Fits(disk0, inode) && FileOk(disk, g)
    ensures |Text(disk0, inode)| == inode.size && |Contents(disk, g)| == g.size
  {
  }

  lemma WrittenLength(io: Block, was: seq<Byte>, offset: nat, buf: seq<Byte>)
    requires offset <= |was|
    ensures |Written(io, was, offset, buf)| == if |was| < offset + |buf| then offset + |buf| else |was|
  {
  }

  /** A dentry is the only one on its vinode exactly when the count says so. */
  lemma LastRef(v: Disked, d: int)
    requires VolInv(v) && d in v.fs.dentries
    ensures Backed(v.fs, d) && (Node(v.fs, d).ref == 1 <==> RefSet(v.fs.dentries, v.fs.dentries[d].vid) == {d})
  {
    hide RfsVolume.TableOk, AgreeOk, LinksOk, DentriesOk, BlocksOk;
    var a := RefSet(v.fs.dentries, v.fs.dentries[d].vid);
    assert d in a;
    if |a| == 1 {
      forall e | e in a
        ensures e == d
      {
        OnlyOne(a, e, d);
      }
    }
  }
}
