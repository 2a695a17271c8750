/** What the files of an RFS volume hold, over whole runs: the volume with its data blocks does what a
    map from names to files and a map from files to bytes does. */
module RfsContents {
  import opened Basics
  import opened RfsFile
  import opened RfsBlocks
  import opened RfsVolume
  import opened RfsOwnership
  import opened RfsNames
  import D = RfsDir

  /** The inodes, entries and caches, and the blocks of the disk. */
  datatype Disked = Disked(fs: State, disk: seq<Block>)

  /** Inode numbers have four bytes in a directory entry. */
  const INUMS: nat := 0x1_0000_0000

  datatype Call =
    /** an operation other than a write; `patch` has the blocks of the directory that it rewrites */
    | Manage(e: Event, patch: map<int, Block>)
    /** rfs_write; `io` is what the block buffer held before, `patch` has the blocks it rewrites */
    | Put(d: int, offset: nat, buf: seq<Byte>, io: Block, more: seq<int>, patch: map<int, Block>)

  // ---------------------------------------------------------------- bytes

  /** The freshest copy of a live inode: its vinode when it is cached, else the one on disk. */
  ghost function Latest(s: State, n: int): Inode
    requires n in s.dinodes
  {
    if n in s.table && s.table[n] in s.vinodes then s.vinodes[s.table[n]].inode else s.dinodes[n]
  }

  function FileOf(inode: Inode): File
    requires |inode.blocks| <= DIRECT
  {
    File(inode.blocks + seq(DIRECT - |inode.blocks|, i => 0), |inode.blocks|, inode.size)
  }

  ghost predicate Fits(disk: seq<Block>, inode: Inode) {
    |inode.blocks| <= DIRECT && FileOk(disk, FileOf(inode))
  }

  ghost function Text(disk: seq<Block>, inode: Inode): (text: seq<Byte>)
    requires Fits(disk, inode)
    ensures |text| == inode.size
  {
    Contents(disk, FileOf(inode))
  }

  function Patched(disk: seq<Block>, patch: map<int, Block>): (disk': seq<Block>)
    ensures |disk'| == |disk|
  {
    seq(|disk|, b requires 0 <= b < |disk| => if b in patch then patch[b] else disk[b])
  }

  ghost predicate SameFile(i: Inode, j: Inode) {
    i.kind == j.kind && i.blocks == j.blocks && i.size == j.size
  }

  /** Rewriting other blocks leaves a file's bytes alone. */
  lemma TextKept(disk: seq<Block>, inode: Inode, patch: map<int, Block>, inode': Inode)
    requires Fits(disk, inode) && SameFile(inode, inode') && (forall b :: b in inode.blocks ==> b !in patch)
    ensures Fits(Patched(disk, patch), inode') && Text(Patched(disk, patch), inode') == Text(disk, inode)
  {
    var disk', f := Patched(disk, patch), FileOf(inode);
    assert forall i :: 0 <= i < f.blocks ==> f.addrs[i] == inode.blocks[i] && f.addrs[i] in inode.blocks;
    var t, t' := Text(disk, inode), Text(disk', inode');
    forall x | 0 <= x < inode.size
      ensures t[x] == t'[x]
    {
      assert f.addrs[x / BLKSIZE] !in patch;
    }
  }

  // ---------------------------------------------------------------- the machine

  predicate InData(disk: seq<Block>, b: int) {
    FREE_OFFSET <= b < |disk|
  }

  /** The inode after a write. */
  function Longer(inode: Inode, more: seq<int>, upto: nat): Inode {
    inode.(blocks := inode.blocks + more, size := if inode.size < upto then upto else inode.size)
  }

  /** What rfs_write promises: it changes blocks of the file only, takes the blocks it needs, and
      leaves the bytes `Written`. */
  ghost predicate Wrote(disk: seq<Block>, inode: Inode, offset: nat, buf: seq<Byte>, io: Block, more: seq<int>,
                        patch: map<int, Block>)
  {
    var inode', disk' := Longer(inode, more, offset + |buf|), Patched(disk, patch);
    && patch.Keys <= BlockSet(inode'.blocks)
    && |more| == Needed(|inode.blocks|, offset, |buf|)
    && Fits(disk, inode) && offset <= inode.size && Fits(disk', inode')
    && Text(disk', inode') == Written(io, Text(disk, inode), offset, buf)
  }

  /** What rfs_add_direntry promises: it changes the directory's block only, and leaves one entry more,
      behind the others, for the name and the inode number. */
  ghost predicate EntryAdded(disk: seq<Block>, inode: Inode, name: string, m: int, patch: map<int, Block>) {
    var inode', disk' := inode.(size := inode.size + ENTRY), Patched(disk, patch);
    && patch.Keys <= BlockSet(inode.blocks) && NameFits(name) && 0 <= m < INUMS
    && Fits(disk, inode) && Fits(disk', inode')
    && exists was :: |was| == ENTRY && Text(disk', inode') == Text(disk, inode) + D.Entry(was, m, Coded(name))
  }

  /** What rfs_unlink promises of the directory: it changes the directory's block only, and cuts out the
      entry with the name. */
  ghost predicate EntryRemoved(disk: seq<Block>, inode: Inode, name: string, patch: map<int, Block>) {
    var disk' := Patched(disk, patch);
    && patch.Keys <= BlockSet(inode.blocks) && Fits(disk, inode) && ENTRY <= inode.size
    && Fits(disk', inode.(size := inode.size - ENTRY))
    && exists i: nat ::
         (i + 1) * ENTRY <= inode.size && NameAt(Text(disk, inode), i) == name
         && Text(disk', inode.(size := inode.size - ENTRY)) == D.Cut(Text(disk, inode), i * ENTRY)
  }

  /** How an operation other than a write changes the disk. */
  ghost predicate Rewrites(v: Disked, e: Event, patch: map<int, Block>)
    requires Enabled(v.fs, e)
  {
    match e
    case Make(_, p, name, _, _, n, b) => EntryAdded(v.disk, Node(v.fs, p).inode, name, n, patch) && InData(v.disk, b)
    case Link(o, p, name, _) => EntryAdded(v.disk, Node(v.fs, p).inode, name, Node(v.fs, o).inum, patch)
    case Unlink(d) =>
      if v.fs.dentries[d].opens > 0 then patch == map[]
      else EntryRemoved(v.disk, Node(v.fs, v.fs.dentries[d].parent).inode, v.fs.dentries[d].name, patch)
    case _ => patch == map[]
  }

  ghost predicate CanCall(v: Disked, c: Call) {
    match c
    case Manage(e, patch) => !e.Write? && Enabled(v.fs, e) && Rewrites(v, e, patch)
    case Put(d, offset, buf, io, more, patch) =>
      && Enabled(v.fs, Write(d, more, offset + |buf|))
      && Wrote(v.disk, Node(v.fs, d).inode, offset, buf, io, more, patch)
  }

  ghost function EventOf(c: Call): Event {
    match c
    case Manage(e, _) => e
    case Put(d, offset, buf, _, more, _) => Write(d, more, offset + |buf|)
  }

  ghost function Next(v: Disked, c: Call): Disked
    requires CanCall(v, c) && Step(v.fs, EventOf(c)).Done?
  {
    Disked(Step(v.fs, EventOf(c)).state, Patched(v.disk, c.patch))
  }

  /** A call made in `v` that leaves `v'`. */
  ghost predicate Performs(v: Disked, c: Call, v': Disked) {
    CanCall(v, c) && Step(v.fs, EventOf(c)) == Done(v'.fs) && v'.disk == Patched(v.disk, c.patch)
  }

  // ---------------------------------------------------------------- the file system as users see it

  /** Which file each name stands for, and what each file holds. */
  datatype Files = Files(names: map<Key, int>, texts: map<int, seq<Byte>>)

  /** What a call means to users. */
  datatype Request =
    | NewFile(key: Key, file: int)
    | NewDir(key: Key, dir: int)
    | NewName(file: int, key: Key)
    | DropName(key: Key)
    | Replace(file: int, offset: nat, buf: seq<Byte>, io: Block)
    | Quiet

  ghost function Meaning(s: State, c: Call): Request
    requires Enabled(s, EventOf(c))
  {
    match c
    case Put(d, offset, buf, io, _, _) => Replace(Node(s, d).inum, offset, buf, io)
    case Manage(Make(kind, p, name, _, _, n, _), _) =>
      var key := Key(Node(s, p).inum, name);
      if kind == FileKind then NewFile(key, n) else NewDir(key, n)
    case Manage(Link(o, p, name, _), _) => NewName(Node(s, o).inum, Key(Node(s, p).inum, name))
    case Manage(Unlink(d), _) => if s.dentries[d].opens > 0 then Quiet else DropName(Place(s, d))
    case Manage(_, _) => Quiet
  }

  /** A file lives as long as it has a name. */
  ghost function Apply(a: Files, r: Request): Files {
    match r
    case NewFile(key, n) => Files(a.names[key := n], a.texts[n := []])
    case NewDir(key, n) => a.(names := a.names[key := n])
    case NewName(n, key) => a.(names := a.names[key := n])
    case DropName(key) =>
      if key !in a.names then a
      else
        var names, n := a.names - {key}, a.names[key];
        if exists k :: k in names && names[k] == n then a.(names := names) else Files(names, a.texts - {n})
    case Replace(n, offset, buf, io) =>
      if n in a.texts && offset <= |a.texts[n]| then
        a.(texts := a.texts[n := Written(io, a.texts[n], offset, buf)])
      else a
    case Quiet => a
  }

  // ---------------------------------------------------------------- the volume holds the files

  ghost predicate IsFileNode(s: State, n: int) {
    n in s.dinodes && s.dinodes[n].kind == FileKind
  }

  ghost predicate IsDirNode(s: State, n: int) {
    n in s.dinodes && s.dinodes[n].kind == DirKind
  }

  /** The volume in order: the inodes and caches, the owners of blocks, and every inode's bytes in blocks
      of the disk; the bytes of a directory list its entries. */
  ghost predicate VolInv(v: Disked) {
    && Inv(v.fs) && BlocksOk(v.fs) && LengthsOk(v.fs)
    && (forall n :: n in v.fs.dinodes ==> NodeFits(v, n))
    && (forall n :: IsDirNode(v.fs, n) ==> Lists(Text(v.disk, Latest(v.fs, n)), n, v.fs.entries))
  }

  ghost predicate NodeFits(v: Disked, n: int)
    requires n in v.fs.dinodes
  {
    0 <= n < INUMS && Latest(v.fs, n).blocks != [] && Fits(v.disk, Latest(v.fs, n))
  }

  ghost function TextOf(v: Disked, n: int): seq<Byte>
    requires VolInv(v) && n in v.fs.dinodes
  {
    Text(v.disk, Latest(v.fs, n))
  }

  /** The files that the volume holds. */
  ghost predicate Holds(v: Disked, a: Files) {
    && VolInv(v)
    && v.fs.entries == a.names
    && (forall n :: n in a.texts <==> IsFileNode(v.fs, n))
    && (forall n :: n in a.texts ==> a.texts[n] == TextOf(v, n))
  }

  // ---------------------------------------------------------------- what an operation leaves alone

  /** The blocks that Latest has are the ones that RfsOwnership counts. */
  lemma LatestOwns(s: State, n: int, b: int)
    requires n in s.dinodes
    ensures b in Latest(s, n).blocks <==> Owns(s, n, b)
  {
  }

  /** What a cached dentry's vinode holds is the freshest copy of its inode. */
  lemma LatestIsNode(s: State, d: int)
    requires Inv(s) && Backed(s, d)
    ensures Node(s, d).inum in s.dinodes && Latest(s, Node(s, d).inum) == Node(s, d).inode
    ensures s.dinodes[Node(s, d).inum].kind == Node(s, d).inode.kind
  {
    hide RefsOk, LinksOk, DentriesOk;
    assert Agrees(s.dinodes[Node(s, d).inum], Node(s, d).inode);
  }

  /** The blocks of one inode are no other's. */
  lemma BlocksApart(s: State, n: int, m: int, b: int)
    requires BlocksOk(s) && n in s.dinodes && m in s.dinodes && n != m && b in Latest(s, n).blocks
    ensures b !in Latest(s, m).blocks
  {
    hide Latest;
    LatestOwns(s, n, b);
    LatestOwns(s, m, b);
  }

  lemma LatestKind(s: State, n: int)
    requires Inv(s) && n in s.dinodes
    ensures Latest(s, n).kind == s.dinodes[n].kind
  {
    hide RefsOk, LinksOk, DentriesOk;
    if n in s.table {
      var v := s.table[n];
      assert v in s.vinodes && s.vinodes[v].inum == n && Agrees(s.dinodes[n], s.vinodes[v].inode);
    }
  }

  /** Inode `n` is as it was: the same bytes in the same blocks. */
  ghost predicate Untouched(v: Disked, t: State, patch: map<int, Block>, n: int) {
    && n in v.fs.dinodes && n in t.dinodes && SameFile(Latest(v.fs, n), Latest(t, n))
    && forall b :: b in Latest(v.fs, n).blocks ==> b !in patch
  }

  lemma NodeKept(v: Disked, t: State, patch: map<int, Block>, n: int)
    requires VolInv(v) && Inv(t) && Untouched(v, t, patch, n)
    ensures var v' := Disked(t, Patched(v.disk, patch));
            && NodeFits(v', n) && Text(v'.disk, Latest(t, n)) == TextOf(v, n)
            && (IsFileNode(t, n) <==> IsFileNode(v.fs, n)) && (IsDirNode(t, n) <==> IsDirNode(v.fs, n))
  {
    hide Inv, Latest, Fits, Text, BlocksOk, LengthsOk, Patched;
    assert NodeFits(v, n);
    LatestKind(v.fs, n);
    LatestKind(t, n);
    TextKept(v.disk, Latest(v.fs, n), patch, Latest(t, n));
  }

  /** Inode `n` has its bytes on the disk, and a directory lists its entries. */
  ghost predicate Good(v: Disked, n: int) {
    && n in v.fs.dinodes && NodeFits(v, n)
    && (IsDirNode(v.fs, n) ==> Lists(Text(v.disk, Latest(v.fs, n)), n, v.fs.entries))
  }

  /** An operation that leaves all inodes but those in `changed` alone. */
  lemma OpKeepsVolInv(v: Disked, t: State, patch: map<int, Block>, changed: set<int>)
    requires VolInv(v) && Inv(t) && BlocksOk(t) && LengthsOk(t)
    requires forall n :: n !in changed ==> SameIn(n, v.fs.entries, t.entries)
    requires forall n :: n in t.dinodes && n !in changed ==> Untouched(v, t, patch, n)
    requires forall n :: n in t.dinodes && n in changed ==> Good(Disked(t, Patched(v.disk, patch)), n)
    ensures VolInv(Disked(t, Patched(v.disk, patch)))
    ensures forall n :: n in t.dinodes && n !in changed ==>
              && n in v.fs.dinodes && (IsFileNode(t, n) <==> IsFileNode(v.fs, n))
              && Text(Patched(v.disk, patch), Latest(t, n)) == TextOf(v, n)
  {
    hide Inv, Latest, Fits, Text, BlocksOk, LengthsOk, Patched, Lists, SameIn, SameFile;
    var v' := Disked(t, Patched(v.disk, patch));
    forall n | n in t.dinodes
      ensures Good(v', n)
      ensures n !in changed ==>
                && n in v.fs.dinodes && (IsFileNode(t, n) <==> IsFileNode(v.fs, n))
                && Text(v'.disk, Latest(t, n)) == TextOf(v, n)
    {
      if n !in changed {
        assert Untouched(v, t, patch, n);
        NodeKept(v, t, patch, n);
        if IsDirNode(t, n) {
          ListsOther(TextOf(v, n), n, v.fs.entries, t.entries);
        }
      }
    }
    assert forall n :: n in t.dinodes ==> Good(v', n);
  }

  // ---------------------------------------------------------------- the inodes after each operation

  /** The files of `s` are in `t` as they were, except those in `changed`. */
  ghost predicate KeepsFiles(s: State, t: State, changed: set<int>) {
    forall n :: n in t.dinodes && n !in changed ==> n in s.dinodes && SameFile(Latest(s, n), Latest(t, n))
  }

  lemma ResizeLatest(s: State, p: int, size: nat)
    requires Inv(s) && IsDir(s, p)
    ensures var t, q := Resized(s, p, size), Node(s, p).inum;
            && t.dinodes.Keys == s.dinodes.Keys && t.entries == s.entries && q in s.dinodes
            && (forall n :: n in s.dinodes ==>
                  Latest(t, n) == if n == q then Latest(s, n).(size := size) else Latest(s, n))
  {
    hide RefsOk, LinksOk, DentriesOk;
  }

  lemma LookupKeepsFiles(s: State, p: int, name: string, d: int, v: int)
    requires Inv(s) && Enabled(s, Lookup(p, name, d, v))
    ensures KeepsFiles(s, LookupStep(s, p, name, d, v), {})
  {
    hide RefsOk, LinksOk, DentriesOk, Cached;
  }

  lemma MakeCoreFiles(s: State, kind: Kind, p: int, name: string, d: int, v: int, n: int, b: int)
    requires Inv(s) && Enabled(s, Make(kind, p, name, d, v, n, b))
    ensures var t := MakeStep(s, kind, p, name, d, v, n, b);
            && KeepsFiles(s, t, {n}) && t.dinodes.Keys == s.dinodes.Keys + {n} && Latest(t, n) == Inode(kind, 1, [b], 0)
            && Node(s, p).inum in s.dinodes && Latest(t, Node(s, p).inum) == Latest(s, Node(s, p).inum)
  {
    hide RefsOk, LinksOk, DentriesOk, Cached;
    TableLive(s.dinodes, s.vinodes, s.table, n);
  }

  /** Create and mkdir: the new inode is empty, the directory is one entry longer. */
  lemma MakeKeepsFiles(s: State, kind: Kind, p: int, name: string, d: int, v: int, n: int, b: int)
    requires Inv(s) && Enabled(s, Make(kind, p, name, d, v, n, b))
    ensures var t, q := Step(s, Make(kind, p, name, d, v, n, b)).state, Node(s, p).inum;
            && KeepsFiles(s, t, {n, q}) && t.dinodes.Keys == s.dinodes.Keys + {n} && q in s.dinodes
            && Latest(t, n) == Inode(kind, 1, [b], 0)
            && Latest(t, q) == Latest(s, q).(size := Node(s, p).inode.size + ENTRY)
            && t.entries == s.entries[Key(q, name) := n]
  {
    hide Inv, Latest, Resized, Cached, SameFile;
    MakeCoreFiles(s, kind, p, name, d, v, n, b);
    MakeKeepsInv(s, kind, p, name, d, v, n, b);
    ParentStays(s, Make(kind, p, name, d, v, n, b));
    ResizeLatest(MakeStep(s, kind, p, name, d, v, n, b), p, Node(s, p).inode.size + ENTRY);
  }

  lemma CloseKeepsFiles(s: State, d: int)
    requires Inv(s) && Enabled(s, Close(d))
    ensures KeepsFiles(s, CloseStep(s, d), {}) && CloseStep(s, d).dinodes.Keys == s.dinodes.Keys
  {
    hide RefsOk, LinksOk, DentriesOk;
  }

  lemma LinkCoreFiles(s: State, o: int, p: int, name: string, d: int)
    requires Inv(s) && Enabled(s, Link(o, p, name, d))
    ensures var t := LinkStep(s, o, p, name, d);
            && KeepsFiles(s, t, {}) && t.dinodes.Keys == s.dinodes.Keys
            && Node(s, p).inum in s.dinodes && Latest(t, Node(s, p).inum) == Latest(s, Node(s, p).inum)
  {
    hide RefsOk, LinksOk, DentriesOk, Cached;
  }

  /** Link: the directory is one entry longer, and no file changes but in its link count. */
  lemma LinkKeepsFiles(s: State, o: int, p: int, name: string, d: int)
    requires Inv(s) && Enabled(s, Link(o, p, name, d))
    ensures var t, q := Step(s, Link(o, p, name, d)).state, Node(s, p).inum;
            && KeepsFiles(s, t, {q}) && t.dinodes.Keys == s.dinodes.Keys && q in s.dinodes
            && Latest(t, q) == Latest(s, q).(size := Node(s, p).inode.size + ENTRY)
            && t.entries == s.entries[Key(q, name) := Node(s, o).inum]
  {
    hide Inv, Latest, Resized, Cached, SameFile;
    LinkCoreFiles(s, o, p, name, d);
    LinkKeepsInv(s, o, p, name, d);
    ParentStays(s, Link(o, p, name, d));
    ResizeLatest(LinkStep(s, o, p, name, d), p, Node(s, p).inode.size + ENTRY);
  }

  lemma UnlinkCoreFiles(s: State, d: int)
    requires Inv(s) && Enabled(s, Unlink(d)) && UnlinkStep(s, d).Done? && s.dentries[d].opens == 0
    ensures var t, n := UnlinkStep(s, d).state, Node(s, d).inum;
            && DentryOk(s, d) && d != 0 && Place(s, d) in s.entries && s.entries[Place(s, d)] == n
            && t.entries == s.entries - {Place(s, d)} && IsFileNode(s, n)
            && t.dinodes.Keys == (if Node(s, d).inode.nlinks == 1 then s.dinodes.Keys - {n} else s.dinodes.Keys)
            && (n in t.dinodes <==> exists k :: k in t.entries && t.entries[k] == n)
            && KeepsFiles(s, t, {})
            && Latest(t, Place(s, d).dir) == Latest(s, Place(s, d).dir)
  {
    hide RefsOk, DentriesOk, Fiber;
    UnlinkFinds(s, d);
    var n, k := Node(s, d).inum, Place(s, d);
    FiberDrop(s.entries, k, n);
    NamedOrNot(UnlinkStep(s, d).state.entries, n);
  }

  /** Unlink takes away the file exactly when it takes its last name, and shortens the directory. */
  lemma UnlinkKeepsFiles(s: State, d: int)
    requires Inv(s) && LengthsOk(s) && Enabled(s, Unlink(d)) && s.dentries[d].opens == 0
    ensures Step(s, Unlink(d)).Done?
    ensures var t, n, p := Step(s, Unlink(d)).state, Node(s, d).inum, s.dentries[d].parent;
            && DentryOk(s, d) && d != 0 && IsDir(s, p) && IsFileNode(s, n) && Node(s, p).inum in t.dinodes
            && Place(s, d) in s.entries && s.entries[Place(s, d)] == n && t.entries == s.entries - {Place(s, d)}
            && t.dinodes.Keys == (if Node(s, d).inode.nlinks == 1 then s.dinodes.Keys - {n} else s.dinodes.Keys)
            && (n in t.dinodes <==> exists k :: k in t.entries && t.entries[k] == n)
            && ENTRY <= Node(s, p).inode.size && KeepsFiles(s, t, {Node(s, p).inum})
            && Latest(t, Node(s, p).inum) == Latest(s, Node(s, p).inum).(size := Node(s, p).inode.size - ENTRY)
  {
    hide Inv, Latest, Resized, SameFile, LengthsOk;
    UnlinkKeepsInv(s, d);
    UnlinkCoreFiles(s, d);
    ParentStays(s, Unlink(d));
    var p := s.dentries[d].parent;
    HasLength(s, p, Place(s, d));
    ResizeLatest(UnlinkStep(s, d).state, p, Node(s, p).inode.size - ENTRY);
  }

  /** A directory with an entry is at least one entry long. */
  lemma HasLength(s: State, p: int, k: Key)
    requires Inv(s) && LengthsOk(s) && IsDir(s, p) && k in s.entries && k.dir == Node(s, p).inum
    ensures ENTRY <= Node(s, p).inode.size
  {
    hide Listed, RefsOk, LinksOk, DentriesOk, TableOk;
    assert LengthOk(s, k.dir);
    assert k in Listed(s.entries, k.dir);
  }

  lemma NamedOrNot(entries: map<Key, int>, n: int)
    ensures |Fiber(entries, n)| == 0 <==> !exists k :: k in entries && entries[k] == n
  {
    if |Fiber(entries, n)| == 0 {
      assert forall k :: k in entries && entries[k] == n ==> k in Fiber(entries, n);
    } else {
      var k := Member(Fiber(entries, n));
      assert k in entries && entries[k] == n;
    }
  }

  // ---------------------------------------------------------------- one operation

  lemma HoldsInv(v: Disked, a: Files)
    requires Holds(v, a)
    ensures VolInv(v) && v.fs.entries == a.names
  {
  }

  /** A patch of one inode's blocks spares the others. */
  lemma OthersSpared(v: Disked, t: State, patch: map<int, Block>, q: int, changed: set<int>)
    requires VolInv(v) && q in v.fs.dinodes && q in changed && KeepsFiles(v.fs, t, changed)
    requires patch.Keys <= BlockSet(Latest(v.fs, q).blocks)
    ensures forall n :: n in t.dinodes && n !in changed ==> Untouched(v, t, patch, n)
  {
    hide Inv, Latest, BlocksOk, LengthsOk, Lists, SameFile;
    forall n | n in t.dinodes && n !in changed
      ensures Untouched(v, t, patch, n)
    {
      forall b | b in Latest(v.fs, n).blocks
        ensures b !in patch
      {
        BlocksApart(v.fs, n, q, b);
        assert b !in patch.Keys;
      }
    }
  }

  /** The files after an operation: those it left alone, and what it made of the others. */
  ghost predicate NewFiles(v': Disked, a: Files, a': Files, changed: set<int>) {
    && a'.names == v'.fs.entries
    && (forall n :: n !in changed ==> (n in a'.texts <==> n in a.texts && n in v'.fs.dinodes))
    && (forall n :: n !in changed && n in a'.texts ==> a'.texts[n] == a.texts[n])
    && (forall n :: n in changed ==> (n in a'.texts <==> IsFileNode(v'.fs, n)))
    && (forall n :: n in changed && n in a'.texts ==> Good(v', n) && a'.texts[n] == Text(v'.disk, Latest(v'.fs, n)))
  }

  lemma OpHolds(v: Disked, a: Files, t: State, patch: map<int, Block>, changed: set<int>, a': Files)
    requires Holds(v, a) && Inv(t) && BlocksOk(t) && LengthsOk(t)
    requires forall n :: n !in changed ==> SameIn(n, v.fs.entries, t.entries)
    requires forall n :: n in t.dinodes && n !in changed ==> Untouched(v, t, patch, n)
    requires forall n :: n in t.dinodes && n in changed ==> Good(Disked(t, Patched(v.disk, patch)), n)
    requires NewFiles(Disked(t, Patched(v.disk, patch)), a, a', changed)
    ensures Holds(Disked(t, Patched(v.disk, patch)), a')
  {
    hide Inv, BlocksOk, LengthsOk, Latest, Fits, Text, Patched, Lists, NodeFits, SameIn, Untouched;
    OpKeepsVolInv(v, t, patch, changed);
  }

  lemma QuietHolds(v: Disked, a: Files, t: State)
    requires Holds(v, a) && Inv(t) && BlocksOk(t) && LengthsOk(t)
    requires KeepsFiles(v.fs, t, {}) && t.dinodes.Keys == v.fs.dinodes.Keys && t.entries == v.fs.entries
    ensures Holds(Disked(t, Patched(v.disk, map[])), a)
  {
    hide Inv, BlocksOk, LengthsOk, Latest, Fits, Text, Patched, Lists, NodeFits;
    OpHolds(v, a, t, map[], {}, a);
  }

  /** The listing of a directory after an entry was added. */
  lemma AddedIsGood(v: Disked, t: State, p: int, name: string, m: int, patch: map<int, Block>)
    requires VolInv(v) && IsDir(v.fs, p) && EntryAdded(v.disk, Node(v.fs, p).inode, name, m, patch)
    requires var q := Node(v.fs, p).inum;
             && q in t.dinodes && q in v.fs.dinodes && Key(q, name) !in v.fs.entries
             && Latest(t, q) == Latest(v.fs, q).(size := Node(v.fs, p).inode.size + ENTRY)
             && t.entries == v.fs.entries[Key(q, name) := m]
    ensures Good(Disked(t, Patched(v.disk, patch)), Node(v.fs, p).inum)
  {
    hide Inv, BlocksOk, LengthsOk, Latest, Fits, Text, Patched, Lists, D.Entry, Coded;
    LatestIsNode(v.fs, p);
    var q, inode := Node(v.fs, p).inum, Node(v.fs, p).inode;
    assert NodeFits(v, q) && IsDirNode(v.fs, q);
    var text := Text(v.disk, inode);
    var was :| |was| == ENTRY
      && Text(Patched(v.disk, patch), inode.(size := inode.size + ENTRY)) == text + D.Entry(was, m, Coded(name));
    ListsAppend(text, was, q, name, m, v.fs.entries);
  }

  /** The listing of a directory after an entry was cut out. */
  lemma RemovedIsGood(v: Disked, t: State, p: int, name: string, patch: map<int, Block>)
    requires VolInv(v) && IsDir(v.fs, p) && EntryRemoved(v.disk, Node(v.fs, p).inode, name, patch)
    requires var q := Node(v.fs, p).inum;
             && q in t.dinodes && q in v.fs.dinodes
             && Latest(t, q) == Latest(v.fs, q).(size := Node(v.fs, p).inode.size - ENTRY)
             && t.entries == v.fs.entries - {Key(q, name)}
    ensures Good(Disked(t, Patched(v.disk, patch)), Node(v.fs, p).inum)
  {
    hide Inv, BlocksOk, LengthsOk, Latest, Fits, Text, Patched, Lists, D.Cut, NameAt;
    LatestIsNode(v.fs, p);
    var q, inode := Node(v.fs, p).inum, Node(v.fs, p).inode;
    assert NodeFits(v, q) && IsDirNode(v.fs, q);
    var text := Text(v.disk, inode);
    var i: nat :| (i + 1) * ENTRY <= inode.size && NameAt(text, i) == name
      && Text(Patched(v.disk, patch), inode.(size := inode.size - ENTRY)) == D.Cut(text, i * ENTRY);
    ListsCut(text, i, q, v.fs.entries);
  }

  lemma EmptyIsGood(v: Disked, n: int, b: int)
    requires n in v.fs.dinodes && 0 <= n < INUMS && InData(v.disk, b)
    requires Latest(v.fs, n).blocks == [b] && Latest(v.fs, n).size == 0
    requires forall k :: k in v.fs.entries ==> k.dir != n
    ensures Good(v, n) && Text(v.disk, Latest(v.fs, n)) == []
  {
    hide Latest, Lists;
    ListsNothing(n, v.fs.entries);
    assert Text(v.disk, Latest(v.fs, n)) == [];
  }

  /** The kinds of the inodes that a creation touches. */
  lemma MakeKinds(s: State, t: State, kind: Kind, n: int, q: int, p: int)
    requires Inv(s) && Inv(t) && IsDir(s, p) && q == Node(s, p).inum && q in s.dinodes && n !in s.dinodes
    requires n in t.dinodes && q in t.dinodes && Latest(t, n).kind == kind && Latest(t, q).kind == Latest(s, q).kind
    ensures !IsFileNode(s, q) && !IsFileNode(t, q) && (IsFileNode(t, n) <==> kind == FileKind)
  {
    hide Inv, Latest;
    LatestIsNode(s, p);
    LatestKind(t, n);
    LatestKind(t, q);
  }

  /** No entry lies in a directory that is not there. */
  lemma NoEntryIn(s: State, n: int)
    requires Inv(s) && n !in s.dinodes
    ensures forall k :: k in s.entries ==> k.dir != n
  {
    hide TableOk, AgreeOk, RefsOk, DentriesOk, Fiber;
  }

  lemma MakeHolds(v: Disked, a: Files, e: Event, patch: map<int, Block>)
    requires Holds(v, a) && CanCall(v, Manage(e, patch)) && e.Make?
    requires Inv(Step(v.fs, e).state) && BlocksOk(Step(v.fs, e).state) && LengthsOk(Step(v.fs, e).state)
    ensures Holds(Next(v, Manage(e, patch)), Apply(a, Meaning(v.fs, Manage(e, patch))))
  {
    hide Inv, BlocksOk, LengthsOk, Latest, Fits, Text, Patched, Lists, NodeFits, Resized, MakeStep, Cached, SameFile;
    hide Untouched, KeepsFiles, Good;
    var s, t, p, n := v.fs, Step(v.fs, e).state, e.parent, e.inum;
    MakeKeepsFiles(s, e.kind, p, e.name, e.d, e.v, n, e.block);
    LatestIsNode(s, p);
    var q, v' := Node(s, p).inum, Disked(t, Patched(v.disk, patch));
    OthersSpared(v, t, patch, q, {n, q});
    AddedIsGood(v, t, p, e.name, n, patch);
    NoEntryIn(s, n);
    EmptyIsGood(v', n, e.block);
    MakeKinds(s, t, e.kind, n, q, p);
    OpHolds(v, a, t, patch, {n, q}, Apply(a, Meaning(s, Manage(e, patch))));
  }

  lemma LinkHolds(v: Disked, a: Files, e: Event, patch: map<int, Block>)
    requires Holds(v, a) && CanCall(v, Manage(e, patch)) && e.Link?
    requires Inv(Step(v.fs, e).state) && BlocksOk(Step(v.fs, e).state) && LengthsOk(Step(v.fs, e).state)
    ensures Holds(Next(v, Manage(e, patch)), Apply(a, Meaning(v.fs, Manage(e, patch))))
  {
    hide Inv, BlocksOk, LengthsOk, Latest, Fits, Text, Patched, Lists, NodeFits, Resized, LinkStep, Cached, SameFile;
    hide Untouched, KeepsFiles, Good;
    var s, t, p := v.fs, Step(v.fs, e).state, e.parent;
    LinkKeepsFiles(s, e.from, p, e.name, e.d);
    LatestIsNode(s, p);
    var q := Node(s, p).inum;
    OthersSpared(v, t, patch, q, {q});
    AddedIsGood(v, t, p, e.name, Node(s, e.from).inum, patch);
    LatestKind(t, q);
    OpHolds(v, a, t, patch, {q}, Apply(a, Meaning(s, Manage(e, patch))));
  }

  lemma UnlinkHolds(v: Disked, a: Files, d: int, patch: map<int, Block>)
    requires Holds(v, a) && CanCall(v, Manage(Unlink(d), patch)) && v.fs.dentries[d].opens == 0
    requires Step(v.fs, Unlink(d)).Done?
    requires var t := Step(v.fs, Unlink(d)).state; Inv(t) && BlocksOk(t) && LengthsOk(t)
    ensures Holds(Next(v, Manage(Unlink(d), patch)), Apply(a, Meaning(v.fs, Manage(Unlink(d), patch))))
  {
    hide Inv, BlocksOk, LengthsOk, Latest, Fits, Text, Patched, Lists, NodeFits, Resized, UnlinkStep, SameFile;
    hide Untouched, KeepsFiles, Good;
    var s, t, p := v.fs, Step(v.fs, Unlink(d)).state, v.fs.dentries[d].parent;
    UnlinkKeepsFiles(s, d);
    LatestIsNode(s, p);
    var q := Node(s, p).inum;
    OthersSpared(v, t, patch, q, {q});
    RemovedIsGood(v, t, p, s.dentries[d].name, patch);
    LatestKind(t, q);
    OpHolds(v, a, t, patch, {q}, Apply(a, Meaning(s, Manage(Unlink(d), patch))));
  }

  lemma OpenKeepsFiles(s: State, d: int)
    requires Inv(s) && Enabled(s, Open(d))
    ensures KeepsFiles(s, OpenStep(s, d), {})
  {
    hide Inv;
  }

  lemma SameKeepsFiles(s: State)
    ensures KeepsFiles(s, s, {})
  {
  }

  /** An operation other than a write does to the files what users expect of it. */
  lemma ManageHolds(v: Disked, a: Files, e: Event, patch: map<int, Block>)
    requires Holds(v, a) && CanCall(v, Manage(e, patch))
    ensures Step(v.fs, e).Done? && Holds(Next(v, Manage(e, patch)), Apply(a, Meaning(v.fs, Manage(e, patch))))
  {
    hide Inv, BlocksOk, LengthsOk, Latest, Holds, KeepsFiles, Orphans, Lost, Cached, Resized, Patched;
    hide EntryAdded, EntryRemoved;
    var s := v.fs;
    HoldsInv(v, a);
    StepKeepsInv(s, e);
    StepOrphans(s, e);
    StepKeepsLengths(s, e);
    match e
    case Lookup(p, name, d, w) =>
      LookupKeepsFiles(s, p, name, d, w);
      QuietHolds(v, a, LookupStep(s, p, name, d, w));
    case Make(_, _, _, _, _, _, _) => MakeHolds(v, a, e, patch);
    case Open(d) =>
      OpenKeepsFiles(s, d);
      QuietHolds(v, a, OpenStep(s, d));
    case Close(d) =>
      CloseKeepsFiles(s, d);
      QuietHolds(v, a, CloseStep(s, d));
    case Link(_, _, _, _) => LinkHolds(v, a, e, patch);
    case Unlink(d) =>
      if s.dentries[d].opens > 0 {
        SameKeepsFiles(s);
        QuietHolds(v, a, s);
      } else {
        UnlinkHolds(v, a, d, patch);
      }
    case Write(_, _, _) =>
  }

  /** A write changes the inode of its file, and no other. */
  lemma WriteLatest(s: State, d: int, more: seq<int>, upto: nat)
    requires Inv(s) && Enabled(s, Write(d, more, upto))
    ensures var t, n := WriteStep(s, d, more, upto), Node(s, d).inum;
            && t.dinodes == s.dinodes && IsFileNode(s, n)
            && Latest(s, n) == Node(s, d).inode && Latest(t, n) == Longer(Node(s, d).inode, more, upto)
            && forall m :: m in s.dinodes && m != n ==> Latest(t, m) == Latest(s, m)
  {
    hide RefsOk, LinksOk, DentriesOk;
    var v := s.dentries[d].vid;
    assert Agrees(s.dinodes[s.vinodes[v].inum], s.vinodes[v].inode);
  }

  /** The blocks that a write changes belong to no other file. */
  lemma WriteSpares(s: State, d: int, more: seq<int>, upto: nat, m: int, b: int)
    requires Inv(s) && BlocksOk(s) && Enabled(s, Write(d, more, upto))
    requires m in s.dinodes && m != Node(s, d).inum && b in Latest(s, m).blocks
    ensures b !in Node(s, d).inode.blocks + more
  {
    hide RefsOk, LinksOk, DentriesOk, TableOk, AgreeOk, Latest, Cur;
    LatestOwns(s, m, b);
    CurOf(s, d);
    var n := Node(s, d).inum;
    assert Owns(s, n, b) <==> b in Cur(s, n);
  }

  /** A write replaces bytes of its file and leaves every other file alone. */
  lemma PutHolds(v: Disked, a: Files, c: Call)
    requires Holds(v, a) && CanCall(v, c) && c.Put?
    ensures Holds(Next(v, c), Apply(a, Meaning(v.fs, c)))
  {
    hide Inv, BlocksOk, LengthsOk, Latest, Fits, Text, Patched, Orphans, Lost, Lists, Written;
    var s, d, upto := v.fs, c.d, c.offset + |c.buf|;
    HoldsInv(v, a);
    StepKeepsInv(s, Write(d, c.more, upto));
    StepOrphans(s, Write(d, c.more, upto));
    StepKeepsLengths(s, Write(d, c.more, upto));
    WriteLatest(s, d, c.more, upto);
    var t, n := WriteStep(s, d, c.more, upto), Node(s, d).inum;
    forall m | m in t.dinodes && m != n
      ensures Untouched(v, t, c.patch, m)
    {
      forall b | b in Latest(s, m).blocks
        ensures b !in c.patch
      {
        WriteSpares(s, d, c.more, upto, m, b);
        assert b !in c.patch.Keys;
      }
    }
    assert NodeFits(v, n);
    OpHolds(v, a, t, c.patch, {n}, Apply(a, Meaning(s, c)));
  }

  /** Every call does to the files what users expect of it, and none panics. */
  lemma CallHolds(v: Disked, a: Files, c: Call)
    requires Holds(v, a) && CanCall(v, c)
    ensures Step(v.fs, EventOf(c)).Done? && Holds(Next(v, c), Apply(a, Meaning(v.fs, c)))
  {
    hide Holds, CanCall, Apply;
    match c
    case Manage(e, patch) => ManageHolds(v, a, e, patch);
    case Put(_, _, _, _, _, _) => PutHolds(v, a, c);
  }

  /** Every call keeps the volume in order. */
  lemma CallKeepsVolInv(v: Disked, c: Call)
    requires VolInv(v) && CanCall(v, c)
    ensures Step(v.fs, EventOf(c)).Done? && VolInv(Next(v, c)) && Performs(v, c, Next(v, c))
  {
    hide CanCall, Step, Inv, BlocksOk, Fits, Latest, Text;
    var a := Files(v.fs.entries, map n | n in v.fs.dinodes && IsFileNode(v.fs, n) :: TextOf(v, n));
    CallHolds(v, a, c);
  }

  // ---------------------------------------------------------------- whole runs

  ghost predicate CanRun(v: Disked, calls: seq<Call>)
    decreases |calls|
  {
    calls == [] || (CanCall(v, calls[0])
        && (Step(v.fs, EventOf(calls[0])).Done? ==> CanRun(Next(v, calls[0]), calls[1..])))
  }

  /** The volume after the calls, unless one of them panics. */
  ghost function Last(v: Disked, calls: seq<Call>): Option<Disked>
    requires CanRun(v, calls)
    decreases |calls|
  {
    if calls == [] then Some(v)
    else if Step(v.fs, EventOf(calls[0])).Done? then Last(Next(v, calls[0]), calls[1..])
    else None
  }

  /** What the calls mean to users. */
  ghost function Requests(v: Disked, calls: seq<Call>): seq<Request>
    requires CanRun(v, calls)
    decreases |calls|
  {
    if calls == [] then []
    else
      [Meaning(v.fs, calls[0])]
      + if Step(v.fs, EventOf(calls[0])).Done? then Requests(Next(v, calls[0]), calls[1..]) else []
  }

  ghost function ApplyAll(a: Files, rs: seq<Request>): Files
    decreases |rs|
  {
    if rs == [] then a else ApplyAll(Apply(a, rs[0]), rs[1..])
  }

  lemma {:induction false} RunsHold(v: Disked, a: Files, calls: seq<Call>)
    requires Holds(v, a) && CanRun(v, calls)
    ensures Last(v, calls).Some? && Holds(Last(v, calls).value, ApplyAll(a, Requests(v, calls)))
    decreases |calls|
  {
    hide Holds, Enabled, Wrote, Apply, Meaning, Step, Next;
    if calls != [] {
      var c := calls[0];
      CallHolds(v, a, c);
      RunsHold(Next(v, c), Apply(a, Meaning(v.fs, c)), calls[1..]);
      var rs := Requests(Next(v, c), calls[1..]);
      assert ([Meaning(v.fs, c)] + rs)[1..] == rs;
    }
  }

  const NO_FILES := Files(map[], map[])

  /** The volume that rfs_format_dev leaves, mounted. */
  function FreshVolume(first: int, disk: seq<Block>): Disked {
    Disked(Formatted(first), disk)
  }

  lemma FreshHolds(first: int, disk: seq<Block>)
    requires InData(disk, first)
    ensures Holds(FreshVolume(first, disk), NO_FILES)
  {
    hide Inv, BlocksOk, LengthsOk, Lists;
    FormattedInv(first);
    EmptyIsGood(FreshVolume(first, disk), ROOT, first);
  }

  /** The file behind dentry `d` has the bytes of the file that its name stands for. */
  ghost predicate ReadsAs(v: Disked, d: int, a: Files) {
    && IsFile(v.fs, d) && Backed(v.fs, v.fs.dentries[d].parent)
    && Place(v.fs, d) in a.names && a.names[Place(v.fs, d)] in a.texts
    && Fits(v.disk, Node(v.fs, d).inode)
    && Text(v.disk, Node(v.fs, d).inode) == a.texts[a.names[Place(v.fs, d)]]
  }

  lemma DentryReads(v: Disked, a: Files, d: int)
    requires Holds(v, a) && IsFile(v.fs, d)
    ensures ReadsAs(v, d, a)
  {
    hide RefsOk, LinksOk, BlocksOk, Fits, Text;
    var s := v.fs;
    assert DentryOk(s, d);
    var n := Node(s, d).inum;
    assert Agrees(s.dinodes[n], Node(s, d).inode);
    assert IsFileNode(s, n) && Latest(s, n) == Node(s, d).inode;
  }

  /** After every run of file operations on a fresh volume the bytes of every directory list the names
      in it that were created or linked and not unlinked, each once and with its inode; a file is there
      exactly while it has a name; and every file reads as the bytes that the writes under any of its
      names left, through every cached dentry too. */
  lemma FilesTheorem(first: int, disk: seq<Block>, calls: seq<Call>)
    requires InData(disk, first) && CanRun(FreshVolume(first, disk), calls)
    ensures Last(FreshVolume(first, disk), calls).Some?
    ensures var v := Last(FreshVolume(first, disk), calls).value;
            var a := ApplyAll(NO_FILES, Requests(FreshVolume(first, disk), calls));
            && (forall k :: k in a.names ==> IsDirNode(v.fs, k.dir))
            && (forall n :: IsDirNode(v.fs, n) ==>
                  Fits(v.disk, Latest(v.fs, n)) && Lists(Text(v.disk, Latest(v.fs, n)), n, a.names))
            && (forall n :: n in a.texts <==> IsFileNode(v.fs, n))
            && (forall n :: n in a.texts ==>
                  Fits(v.disk, Latest(v.fs, n)) && Text(v.disk, Latest(v.fs, n)) == a.texts[n])
            && (forall d :: IsFile(v.fs, d) ==> ReadsAs(v, d, a))
  {
    hide BlocksOk, LengthsOk, Latest, Fits, Text, Lists, TableOk, AgreeOk, RefsOk, DentriesOk, Fiber;
    var start := FreshVolume(first, disk);
    FreshHolds(first, disk);
    RunsHold(start, NO_FILES, calls);
    var v, a := Last(start, calls).value, ApplyAll(NO_FILES, Requests(start, calls));
    forall d | IsFile(v.fs, d)
      ensures ReadsAs(v, d, a)
    {
      DentryReads(v, a, d);
    }
    assert forall n :: n in v.fs.dinodes ==> NodeFits(v, n);
  }

  /** After every run, whatever is read through a cached dentry is read from the bytes that the writes
      under any name of the file left; a file without zeros is read in whole by asking for its size. */
  lemma ReadsAfterRun(first: int, disk: seq<Block>, calls: seq<Call>, d: int, offset: nat, len: nat, t: seq<Byte>)
    requires InData(disk, first) && CanRun(FreshVolume(first, disk), calls)
    requires Last(FreshVolume(first, disk), calls).Some?
    requires var v := Last(FreshVolume(first, disk), calls).value;
             && IsFile(v.fs, d) && Fits(v.disk, Node(v.fs, d).inode)
             && Reads(Text(v.disk, Node(v.fs, d).inode), offset, len, t)
    ensures var v := Last(FreshVolume(first, disk), calls).value;
            var a := ApplyAll(NO_FILES, Requests(FreshVolume(first, disk), calls));
            && ReadsAs(v, d, a)
            && var text := a.texts[a.names[Place(v.fs, d)]];
               && Reads(text, offset, len, t)
               && (offset == 0 && 0 !in text && |text| <= len ==> t == text)
  {
    FilesTheorem(first, disk, calls);
    var v := Last(FreshVolume(first, disk), calls).value;
    var a := ApplyAll(NO_FILES, Requests(FreshVolume(first, disk), calls));
    hide FreshVolume, Last, Requests, ApplyAll, CanRun, Reads, Text, Fits;
    assert ReadsAs(v, d, a);
    var text := a.texts[a.names[Place(v.fs, d)]];
    if offset == 0 && 0 !in text && |text| <= len {
      WholeRead(text, len, t);
    }
  }

  // ---------------------------------------------------------------- writes as users expect them

  /** The same with writes that change the bytes they name and no others. */
  ghost function ApplyExactly(a: Files, r: Request): Files {
    if r.Replace? && r.file in a.texts && r.offset <= |a.texts[r.file]| then
      a.(texts := a.texts[r.file := Overlay(a.texts[r.file], r.offset, r.buf)])
    else Apply(a, r)
  }

  ghost function ApplyAllExactly(a: Files, rs: seq<Request>): Files
    decreases |rs|
  {
    if rs == [] then a else ApplyAllExactly(ApplyExactly(a, rs[0]), rs[1..])
  }

  /** No write stops inside a block that it began at its start, short of the end of the file. */
  ghost predicate Tidy(a: Files, rs: seq<Request>)
    decreases |rs|
  {
    rs == []
    || (&& (rs[0].Replace? && rs[0].file in a.texts ==> !StopsInside(rs[0].offset, |rs[0].buf|, |a.texts[rs[0].file]|))
        && Tidy(ApplyExactly(a, rs[0]), rs[1..]))
  }

  /** Without such writes the volume holds what users expect. */
  lemma {:induction false} TidyIsExact(a: Files, rs: seq<Request>)
    requires Tidy(a, rs)
    ensures ApplyAll(a, rs) == ApplyAllExactly(a, rs)
    decreases |rs|
  {
    hide Written, Overlay, StopsInside;
    if rs != [] {
      var r := rs[0];
      if r.Replace? && r.file in a.texts && r.offset <= |a.texts[r.file]| {
        OverwriteIsExact(r.offset, |r.buf|, |a.texts[r.file]|);
      }
      TidyIsExact(ApplyExactly(a, r), rs[1..]);
    }
  }
}
