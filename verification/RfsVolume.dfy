/** Inodes, hard links and data blocks of an RFS volume behind the VFS caches (kernel/rfs.c,
    kernel/vfs.c): the disk inodes, the directory entries, the free map, the cached vinodes and the
    cached dentries, changed by whole file operations. A directory is here a finite map from names to
    inode numbers; its blocks are the subject of RfsDir. */
module RfsVolume {
  import opened Basics
  import opened RfsFile

  datatype Kind = FileKind | DirKind

  /** What a disk inode and a vinode have in common. `blocks` is addrs[0..blocks). */
  datatype Inode = Inode(kind: Kind, nlinks: int, blocks: seq<int>, size: nat)

  /** A cached vinode; `ref` counts the dentries that point to it. */
  datatype Vinode = Vinode(inum: int, inode: Inode, ref: int)

  /** A cached dentry; `opens` is d_ref, the number of open files. */
  datatype Dentry = Dentry(parent: int, name: string, vid: int, opens: int)

  /** A directory entry's place: the directory's inode number and the name. */
  datatype Key = Key(dir: int, name: string)

  const ROOT := 0

  /** The volume. `dinodes` has the inodes that are not free; `table` is the vinode hash table. */
  datatype State = State(
    dinodes: map<int, Inode>, entries: map<Key, int>, used: set<int>,
    vinodes: map<int, Vinode>, table: map<int, int>, dentries: map<int, Dentry>)

  datatype Outcome = Done(state: State) | Panic

  datatype Event =
    /** one step of a path lookup; `d` and `v` are the pages for a new dentry and a new vinode */
    | Lookup(parent: int, name: string, d: int, v: int)
    /** create and open a file, or make a directory, with a free inode and a free block */
    | Make(kind: Kind, parent: int, name: string, d: int, v: int, inum: int, block: int)
    | Open(d: int)
    | Close(d: int)
    /** a write that ends at position `upto` and takes the blocks `more` */
    | Write(d: int, more: seq<int>, upto: nat)
    | Link(from: int, parent: int, name: string, d: int)
    | Unlink(d: int)

  // ---- the operations ----

  ghost predicate Cached(s: State, parent: int, name: string) {
    exists d :: d in s.dentries && s.dentries[d].parent == parent && s.dentries[d].name == name
  }

  /** The vinode behind a dentry. */
  predicate Backed(s: State, d: int) {
    d in s.dentries && s.dentries[d].vid in s.vinodes
  }

  function Node(s: State, d: int): Vinode
    requires Backed(s, d)
  {
    s.vinodes[s.dentries[d].vid]
  }

  predicate IsDir(s: State, d: int) {
    Backed(s, d) && Node(s, d).inode.kind == DirKind
  }

  predicate IsFile(s: State, d: int) {
    Backed(s, d) && Node(s, d).inode.kind == FileKind
  }

  /** The characters of a C string. */
  predicate IsBytes(name: string) {
    forall i :: 0 <= i < |name| ==> 0 < name[i] as int < 256
  }

  /** A name that fits an entry, with its terminator: RFS_MAX_FILE_NAME_LEN is 28. */
  predicate NameFits(name: string) {
    IsBytes(name) && |name| < ENTRY - 4
  }

  /** Directory `p` has room for one more entry in its block; rfs_add_direntry never takes another. */
  predicate Room(s: State, p: int)
    requires Backed(s, p)
  {
    Node(s, p).inode.size + ENTRY <= BLKSIZE
  }

  /** When an operation can be called, and what it is given by the allocators. */
  ghost predicate Enabled(s: State, e: Event) {
    match e
    case Lookup(p, name, d, v) => IsDir(s, p) && d !in s.dentries && v !in s.vinodes
    case Make(kind, p, name, d, v, n, b) =>
      IsDir(s, p) && Key(Node(s, p).inum, name) !in s.entries && !Cached(s, p, name)
      && d !in s.dentries && v !in s.vinodes && n !in s.dinodes && b !in s.used
      && Room(s, p) && NameFits(name)
    case Open(d) => IsFile(s, d)
    case Close(d) => IsFile(s, d) && s.dentries[d].opens > 0
    case Write(d, more, _) => IsFile(s, d) && s.dentries[d].opens > 0 && Fresh(s, more)
    case Link(o, p, name, d) =>
      IsFile(s, o) && IsDir(s, p) && Key(Node(s, p).inum, name) !in s.entries && !Cached(s, p, name)
      && d !in s.dentries && Room(s, p) && NameFits(name)
    case Unlink(d) => IsFile(s, d) && Backed(s, s.dentries[d].parent) && s.dentries[d].opens >= 0
  }

  /** lookup_final_dentry, for one name. */
  ghost function LookupStep(s: State, p: int, name: string, d: int, v: int): State
    requires IsDir(s, p)
  {
    var key := Key(Node(s, p).inum, name);
    if Cached(s, p, name) || key !in s.entries || s.entries[key] !in s.dinodes then s
    else
      var n := s.entries[key];
      if n in s.table && s.table[n] in s.vinodes then
        var same := s.table[n];
        var node := s.vinodes[same];
        s.(vinodes := s.vinodes[same := node.(ref := node.ref + 1)],
           dentries := s.dentries[d := Dentry(p, name, same, 0)])
      else
        s.(vinodes := s.vinodes[v := Vinode(n, s.dinodes[n], 1)],
           table := s.table[n := v],
           dentries := s.dentries[d := Dentry(p, name, v, 0)])
  }

  /** A directory's new length, in its vinode and on disk. */
  function Resized(s: State, p: int, size: int): State {
    if Backed(s, p) && size >= 0 then
      var node := Node(s, p).(inode := Node(s, p).inode.(size := size));
      s.(vinodes := s.vinodes[s.dentries[p].vid := node], dinodes := s.dinodes[node.inum := node.inode])
    else s
  }

  /** rfs_create with vfs_open, and rfs_mkdir with vfs_mkdir, up to the length of the directory. */
  ghost function MakeStep(s: State, kind: Kind, p: int, name: string, d: int, v: int, n: int, b: int): State
    requires IsDir(s, p)
  {
    var inode := Inode(kind, 1, [b], 0);
    State(s.dinodes[n := inode], s.entries[Key(Node(s, p).inum, name) := n], s.used + {b},
      s.vinodes[v := Vinode(n, inode, 1)],
      if n in s.table then s.table else s.table[n := v],
      s.dentries[d := Dentry(p, name, v, if kind == FileKind then 1 else 0)])
  }

  function OpenStep(s: State, d: int): State
    requires Backed(s, d)
  {
    s.(dentries := s.dentries[d := s.dentries[d].(opens := s.dentries[d].opens + 1)])
  }

  /** vfs_close: the last close of a dentry drops it, the last dentry writes the vinode back. */
  function CloseStep(s: State, d: int): State
    requires Backed(s, d)
  {
    var dentry := s.dentries[d];
    var node := Node(s, d);
    if dentry.opens - 1 != 0 then
      s.(dentries := s.dentries[d := dentry.(opens := dentry.opens - 1)])
    else if node.ref - 1 != 0 then
      s.(dentries := s.dentries - {d}, vinodes := s.vinodes[dentry.vid := node.(ref := node.ref - 1)])
    else
      s.(dentries := s.dentries - {d}, vinodes := s.vinodes - {dentry.vid}, table := s.table - {node.inum},
         dinodes := s.dinodes[node.inum := node.inode])
  }

  /** Different blocks that are all free. */
  ghost predicate Fresh(s: State, blocks: seq<int>) {
    && (forall i :: 0 <= i < |blocks| ==> blocks[i] !in s.used)
    && NoDuplicates(blocks)
  }

  /** rfs_write: new blocks at the end of the file, and a new length if the write goes past the old one. */
  function WriteStep(s: State, d: int, more: seq<int>, upto: nat): State
    requires Backed(s, d)
  {
    var node := Node(s, d);
    var inode := node.inode.(
      blocks := node.inode.blocks + more, size := if node.inode.size < upto then upto else node.inode.size);
    s.(vinodes := s.vinodes[s.dentries[d].vid := node.(inode := inode)], used := s.used + BlockSet(more))
  }

  /** vfs_link and rfs_link, up to the length of the directory. */
  function LinkStep(s: State, o: int, p: int, name: string, d: int): State
    requires Backed(s, o) && Backed(s, p)
  {
    var vid := s.dentries[o].vid;
    var node := s.vinodes[vid];
    var inode := node.inode.(nlinks := node.inode.nlinks + 1);
    s.(vinodes := s.vinodes[vid := node.(inode := inode, ref := node.ref + 1)],
       entries := s.entries[Key(Node(s, p).inum, name) := node.inum],
       dinodes := s.dinodes[node.inum := inode],
       dentries := s.dentries[d := Dentry(p, name, vid, 0)])
  }

  /** vfs_unlink and rfs_unlink, up to the length of the directory. It panics if the link counts of the
      vinode and of the disk inode differ, and if a dead inode is still referenced. */
  function UnlinkStep(s: State, d: int): Outcome
    requires Backed(s, d) && Backed(s, s.dentries[d].parent)
  {
    var dentry := s.dentries[d];
    var node := Node(s, d);
    var key := Key(Node(s, dentry.parent).inum, dentry.name);
    if dentry.opens > 0 || key !in s.entries || s.entries[key] !in s.dinodes then Done(s)
    else
      var n := s.entries[key];
      var dinode := s.dinodes[n];
      if node.inode.nlinks != dinode.nlinks then Panic
      else
        var left := node.inode.nlinks - 1;
        if left != 0 then
          Done(s.(dinodes := s.dinodes[n := dinode.(nlinks := left)],
                  entries := s.entries - {key},
                  vinodes := s.vinodes[dentry.vid := node.(inode := node.inode.(nlinks := left), ref := node.ref - 1)],
                  dentries := s.dentries - {d}))
        else if node.ref - 1 != 0 then Panic
        else
          Done(State(s.dinodes - {n}, s.entries - {key}, s.used - BlockSet(dinode.blocks),
                     s.vinodes - {dentry.vid}, s.table - {node.inum}, s.dentries - {d}))
  }

  function BlockSet(blocks: seq<int>): set<int> {
    set b | b in blocks
  }

  ghost function Step(s: State, e: Event): Outcome
    requires Enabled(s, e)
  {
    match e
    case Lookup(p, name, d, v) => Done(LookupStep(s, p, name, d, v))
    case Make(kind, p, name, d, v, n, b) =>
      Done(Resized(MakeStep(s, kind, p, name, d, v, n, b), p, Node(s, p).inode.size + ENTRY))
    case Open(d) => Done(OpenStep(s, d))
    case Close(d) => Done(CloseStep(s, d))
    case Write(d, more, upto) => Done(WriteStep(s, d, more, upto))
    case Link(o, p, name, d) => Done(Resized(LinkStep(s, o, p, name, d), p, Node(s, p).inode.size + ENTRY))
    case Unlink(d) =>
      var p := s.dentries[d].parent;
      match UnlinkStep(s, d)
      case Done(t) => Done(if t.entries == s.entries then t else Resized(t, p, Node(s, p).inode.size - ENTRY))
      case Panic => Panic
  }

  /** rfs_format_dev and the mount of the volume: the root directory with the first data block. */
  function Formatted(first: int): State {
    var root := Inode(DirKind, 1, [first], 0);
    State(map[ROOT := root], map[], {first}, map[0 := Vinode(ROOT, root, 1)], map[ROOT := 0],
      map[0 := Dentry(-1, "/", 0, 0)])
  }

  // ---- what always holds ----

  /** Each inode number has at most one cached vinode, and that one is in the table. */
  ghost predicate TableOk(dinodes: map<int, Inode>, vinodes: map<int, Vinode>, table: map<int, int>) {
    && (forall v :: v in vinodes ==>
        vinodes[v].inum in dinodes && vinodes[v].inum in table && table[vinodes[v].inum] == v)
    && (forall n :: n in table ==> table[n] in vinodes && vinodes[table[n]].inum == n)
  }

  /** A vinode and its disk inode agree on everything but the length and the newest blocks. */
  ghost predicate Agrees(dinode: Inode, node: Inode) {
    && node.kind == dinode.kind && node.nlinks == dinode.nlinks && dinode.blocks <= node.blocks
    && (node.kind == DirKind ==> node == dinode)
  }

  ghost predicate AgreeOk(dinodes: map<int, Inode>, vinodes: map<int, Vinode>) {
    forall v :: v in vinodes ==> vinodes[v].inum in dinodes && Agrees(dinodes[vinodes[v].inum], vinodes[v].inode)
  }

  /** The vinode of each dentry. */
  ghost function Vids(dentries: map<int, Dentry>): map<int, int> {
    map d | d in dentries :: dentries[d].vid
  }

  ghost function RefSet(dentries: map<int, Dentry>, v: int): (a: set<int>)
    ensures forall d :: d in a <==> d in dentries && dentries[d].vid == v
  {
    Fiber(Vids(dentries), v)
  }

  ghost predicate RefsOk(vinodes: map<int, Vinode>, dentries: map<int, Dentry>) {
    && (forall d :: d in dentries ==> dentries[d].vid in vinodes && dentries[d].opens >= 0)
    && (forall v :: v in vinodes ==> vinodes[v].ref == |RefSet(dentries, v)|)
  }

  /** The link count of a file is the number of entries that name it, and a directory has one entry. */
  ghost predicate LinksOk(dinodes: map<int, Inode>, entries: map<Key, int>) {
    && ROOT in dinodes && dinodes[ROOT].kind == DirKind
    && (forall k :: k in entries ==> entries[k] in dinodes && k.dir in dinodes && dinodes[k.dir].kind == DirKind)
    && (forall n :: n in dinodes ==> LinkCountOk(dinodes[n], n, |Fiber(entries, n)|))
  }

  ghost predicate LinkCountOk(inode: Inode, n: int, count: nat) {
    if inode.kind == FileKind then inode.nlinks == count >= 1
    else inode.nlinks == 1 && count == if n == ROOT then 0 else 1
  }

  /** The place on disk of a cached dentry's entry. */
  ghost function Place(s: State, d: int): Key
    requires d in s.dentries && Backed(s, s.dentries[d].parent)
  {
    Key(Node(s, s.dentries[d].parent).inum, s.dentries[d].name)
  }

  /** Every dentry but the root's stands for an entry of its parent directory. */
  ghost predicate DentryOk(s: State, d: int)
    requires d in s.dentries
  {
    && Backed(s, d)
    && (Node(s, d).inum == ROOT <==> d == 0)
    && (d != 0 ==>
          IsDir(s, s.dentries[d].parent) && Place(s, d) in s.entries
          && s.entries[Place(s, d)] == Node(s, d).inum)
  }

  ghost predicate DentriesOk(s: State) {
    && IsDir(s, 0)
    && (forall d :: d in s.dentries ==> DentryOk(s, d))
    && (forall d, e :: d in s.dentries && e in s.dentries && SameName(s.dentries[d], s.dentries[e]) ==> d == e)
    && (forall d, e :: IsDir(s, d) && IsDir(s, e) && Node(s, d).inum == Node(s, e).inum ==> d == e)
  }

  predicate SameName(x: Dentry, y: Dentry) {
    x.parent == y.parent && x.name == y.name
  }

  ghost predicate Inv(s: State) {
    && TableOk(s.dinodes, s.vinodes, s.table)
    && AgreeOk(s.dinodes, s.vinodes)
    && RefsOk(s.vinodes, s.dentries)
    && LinksOk(s.dinodes, s.entries)
    && DentriesOk(s)
  }

  // ---- counting ----

  lemma RefSetAdd(dentries: map<int, Dentry>, d: int, x: Dentry, v: int)
    requires d !in dentries
    ensures |RefSet(dentries[d := x], v)| == |RefSet(dentries, v)| + if x.vid == v then 1 else 0
  {
    assert Vids(dentries[d := x]) == Vids(dentries)[d := x.vid];
    FiberAdd(Vids(dentries), d, x.vid, v);
  }

  lemma RefSetDrop(dentries: map<int, Dentry>, d: int, v: int)
    requires d in dentries
    ensures |RefSet(dentries - {d}, v)| == |RefSet(dentries, v)| - if dentries[d].vid == v then 1 else 0
  {
    assert Vids(dentries - {d}) == Vids(dentries) - {d};
    FiberDrop(Vids(dentries), d, v);
  }

  // ---- dentries ----

  /** Dentry `d` looks the same in both states: name, parent, inode number and kind. */
  ghost predicate SameFace(s: State, t: State, d: int) {
    && Backed(s, d) && Backed(t, d) && SameName(s.dentries[d], t.dentries[d])
    && Node(t, d).inum == Node(s, d).inum && Node(t, d).inode.kind == Node(s, d).inode.kind
  }

  lemma DentriesSame(s: State, t: State)
    requires DentriesOk(s) && t.dentries.Keys == s.dentries.Keys && t.entries == s.entries
    requires forall d :: d in s.dentries ==> SameFace(s, t, d)
    ensures DentriesOk(t)
  {
    forall d | d in t.dentries
      ensures DentryOk(t, d)
    {
      KeepsPlace(s, t, d);
    }
  }

  lemma KeepsPlace(s: State, t: State, d: int)
    requires d in s.dentries && DentryOk(s, d) && SameFace(s, t, d)
    requires d != 0 ==> SameFace(s, t, s.dentries[d].parent)
    requires d != 0 ==> Place(s, d) in t.entries && t.entries[Place(s, d)] == s.entries[Place(s, d)]
    ensures DentryOk(t, d)
  {
  }

  lemma DentriesAdd(s: State, t: State, d: int, x: Dentry)
    requires DentriesOk(s) && d !in s.dentries && t.dentries == s.dentries[d := x]
    requires forall e :: e in s.dentries ==> SameFace(s, t, e)
    requires forall k :: k in s.entries ==> k in t.entries && t.entries[k] == s.entries[k]
    requires IsDir(s, x.parent) && !Cached(s, x.parent, x.name) && x.vid in t.vinodes && t.vinodes[x.vid].inum != ROOT
    requires var key := Key(Node(s, x.parent).inum, x.name); key in t.entries && t.entries[key] == t.vinodes[x.vid].inum
    requires IsDir(t, d) ==> forall e :: IsDir(s, e) ==> Node(s, e).inum != t.vinodes[x.vid].inum
    ensures DentriesOk(t)
  {
    assert 0 in s.dentries;
    forall e | e in t.dentries
      ensures DentryOk(t, e)
    {
      if e != d {
        KeepsPlace(s, t, e);
      } else {
        assert SameFace(s, t, x.parent);
      }
    }
    forall e, e' | e in t.dentries && e' in t.dentries && SameName(t.dentries[e], t.dentries[e'])
      ensures e == e'
    {
      assert e != d ==> SameFace(s, t, e);
      assert e' != d ==> SameFace(s, t, e');
    }
    forall e, e' | IsDir(t, e) && IsDir(t, e') && Node(t, e).inum == Node(t, e').inum
      ensures e == e'
    {
      assert e != d ==> SameFace(s, t, e);
      assert e' != d ==> SameFace(s, t, e');
    }
  }

  /** No other dentry stands for the same entry. */
  lemma PlaceUnique(s: State, d: int, e: int)
    requires DentriesOk(s) && d in s.dentries && e in s.dentries && d != 0 && e != 0 && d != e
    ensures DentryOk(s, d) && DentryOk(s, e) && Place(s, d) != Place(s, e)
  {
    if Place(s, d) == Place(s, e) {
      assert s.dentries[d].parent == s.dentries[e].parent;
      assert SameName(s.dentries[d], s.dentries[e]);
    }
  }

  lemma DentriesDrop(s: State, t: State, d: int)
    requires DentriesOk(s) && IsFile(s, d) && t.dentries == s.dentries - {d}
    requires forall e :: e in s.dentries && e != d ==> SameFace(s, t, e)
    requires d != 0 ==> DentryOk(s, d) && (t.entries == s.entries || t.entries == s.entries - {Place(s, d)})
    ensures d != 0 && DentriesOk(t)
  {
    assert d != 0;
    forall e | e in t.dentries
      ensures DentryOk(t, e)
    {
      assert DentryOk(s, e);
      if e != 0 {
        PlaceUnique(s, d, e);
        assert s.dentries[e].parent != d;
      }
      KeepsPlace(s, t, e);
    }
    forall e, e' | IsDir(t, e) && IsDir(t, e') && Node(t, e).inum == Node(t, e').inum
      ensures e == e'
    {
      assert SameFace(s, t, e) && SameFace(s, t, e');
    }
  }

  // ---- references ----

  lemma RefsAdd(vinodes: map<int, Vinode>, dentries: map<int, Dentry>, vinodes': map<int, Vinode>, d: int, x: Dentry)
    requires RefsOk(vinodes, dentries) && d !in dentries && x.opens >= 0
    requires vinodes'.Keys == vinodes.Keys + {x.vid}
    requires forall v :: v in vinodes && v != x.vid ==> vinodes'[v].ref == vinodes[v].ref
    requires vinodes'[x.vid].ref == 1 + if x.vid in vinodes then vinodes[x.vid].ref else 0
    ensures RefsOk(vinodes', dentries[d := x])
  {
    hide RefSet;
    forall v | v in vinodes'
      ensures vinodes'[v].ref == |RefSet(dentries[d := x], v)|
    {
      RefSetAdd(dentries, d, x, v);
      if v !in vinodes {
        assert forall e :: e in dentries ==> dentries[e].vid != v;
        assert RefSet(dentries, v) == {};
      }
    }
  }

  lemma RefsDrop(vinodes: map<int, Vinode>, dentries: map<int, Dentry>, vinodes': map<int, Vinode>, d: int)
    requires RefsOk(vinodes, dentries) && d in dentries
    requires var vid := dentries[d].vid;
             && (forall v :: v in vinodes && v != vid ==> v in vinodes' && vinodes'[v].ref == vinodes[v].ref)
             && (forall v :: v in vinodes' ==> v in vinodes)
             && if vid in vinodes' then vinodes'[vid].ref == vinodes[vid].ref - 1 else vinodes[vid].ref - 1 == 0
    ensures RefsOk(vinodes', dentries - {d})
  {
    hide RefSet;
    var vid := dentries[d].vid;
    forall v | v in vinodes
      ensures v in vinodes' ==> vinodes'[v].ref == |RefSet(dentries - {d}, v)|
      ensures v !in vinodes' ==> RefSet(dentries - {d}, v) == {}
    {
      RefSetDrop(dentries, d, v);
    }
    forall e | e in dentries - {d}
      ensures dentries[e].vid in vinodes'
    {
      assert vid !in vinodes' ==> e !in RefSet(dentries - {d}, vid);
    }
  }

  lemma RefsSame(vinodes: map<int, Vinode>, dentries: map<int, Dentry>, vinodes': map<int, Vinode>,
                 dentries': map<int, Dentry>)
    requires RefsOk(vinodes, dentries) && vinodes'.Keys == vinodes.Keys && dentries'.Keys == dentries.Keys
    requires forall v :: v in vinodes ==> vinodes'[v].ref == vinodes[v].ref
    requires forall d :: d in dentries ==> dentries'[d].vid == dentries[d].vid && dentries'[d].opens >= 0
    ensures RefsOk(vinodes', dentries')
  {
    forall v | v in vinodes
      ensures RefSet(dentries', v) == RefSet(dentries, v)
    {
      assert forall d :: d in RefSet(dentries', v) <==> d in dentries && dentries[d].vid == v;
    }
  }

  /** Nobody can find a dead inode: without an entry there is no dentry. */
  lemma NoEntryNoRef(s: State, d: int)
    requires Inv(s) && IsFile(s, d) && |Fiber(s.entries, Node(s, d).inum)| == 1
    ensures Node(s, d).ref == 1
  {
    var vid, n := s.dentries[d].vid, Node(s, d).inum;
    assert d in RefSet(s.dentries, vid);
    assert DentryOk(s, d);
    forall e | e in RefSet(s.dentries, vid)
      ensures e == d
    {
      assert DentryOk(s, e);
      assert Place(s, e) in Fiber(s.entries, n) && Place(s, d) in Fiber(s.entries, n);
      OnlyOne(Fiber(s.entries, n), Place(s, e), Place(s, d));
      if e != d {
        PlaceUnique(s, d, e);
      }
    }
    assert RefSet(s.dentries, vid) == {d};
  }

  lemma OnlyOne<T>(a: set<T>, x: T, y: T)
    requires |a| == 1 && x in a && y in a
    ensures x == y
  {
    assert a == {x} + (a - {x});
    assert a - {x} == {};
  }

  // ---- every step keeps the invariant ----

  lemma LookupKeepsInv(s: State, p: int, name: string, d: int, v: int)
    requires Inv(s) && Enabled(s, Lookup(p, name, d, v))
    ensures Inv(LookupStep(s, p, name, d, v))
  {
    hide TableOk, AgreeOk, RefsOk, LinksOk, DentriesOk;
    var t := LookupStep(s, p, name, d, v);
    if t != s {
      LookupKeepsVinodes(s, p, name, d, v);
      var x := t.dentries[d];
      RefsAdd(s.vinodes, s.dentries, t.vinodes, d, x);
      DirsFoundOnce(s, p, name);
      FoundFaces(s, p, name, d, v);
      DentriesAdd(s, t, d, x);
    }
  }

  lemma LookupKeepsVinodes(s: State, p: int, name: string, d: int, v: int)
    requires Inv(s) && Enabled(s, Lookup(p, name, d, v))
    ensures var t := LookupStep(s, p, name, d, v);
              TableOk(t.dinodes, t.vinodes, t.table)
              && AgreeOk(t.dinodes, t.vinodes)
  {
    hide RefsOk, LinksOk, DentriesOk, Cached;
  }

  lemma FoundFaces(s: State, p: int, name: string, d: int, v: int)
    requires Inv(s) && Enabled(s, Lookup(p, name, d, v)) && LookupStep(s, p, name, d, v) != s
    ensures var t := LookupStep(s, p, name, d, v); forall e :: e in s.dentries ==> SameFace(s, t, e)
    ensures var t := LookupStep(s, p, name, d, v); var n := s.entries[Key(Node(s, p).inum, name)];
            n in s.dinodes && n != ROOT && Node(t, d).inum == n && Node(t, d).inode.kind == s.dinodes[n].kind
  {
    hide DentriesOk, Cached;
    var n := s.entries[Key(Node(s, p).inum, name)];
    assert Key(Node(s, p).inum, name) in Fiber(s.entries, n);
  }

  /** A directory that a lookup loads from disk was not cached: it has one entry only. */
  lemma DirsFoundOnce(s: State, p: int, name: string)
    requires Inv(s) && IsDir(s, p) && !Cached(s, p, name)
    requires var key := Key(Node(s, p).inum, name); key in s.entries && s.entries[key] in s.dinodes
    ensures var n := s.entries[Key(Node(s, p).inum, name)];
            s.dinodes[n].kind == DirKind ==> forall e :: IsDir(s, e) ==> Node(s, e).inum != n
  {
    var key := Key(Node(s, p).inum, name);
    var n := s.entries[key];
    if s.dinodes[n].kind == DirKind {
      forall e | IsDir(s, e)
        ensures Node(s, e).inum != n
      {
        assert DentryOk(s, e) && key in Fiber(s.entries, n);
        if Node(s, e).inum == n {
          assert e != 0;
          assert Place(s, e) in Fiber(s.entries, n);
          OnlyOne(Fiber(s.entries, n), Place(s, e), key);
        }
      }
    }
  }

  lemma MakeKeepsInv(s: State, kind: Kind, p: int, name: string, d: int, v: int, n: int, b: int)
    requires Inv(s) && Enabled(s, Make(kind, p, name, d, v, n, b))
    ensures Inv(MakeStep(s, kind, p, name, d, v, n, b))
  {
    hide TableOk, AgreeOk, RefsOk, LinksOk, DentriesOk, Cached;
    var t := MakeStep(s, kind, p, name, d, v, n, b);
    MakeKeepsVinodes(s, kind, p, name, d, v, n, b);
    MakeKeepsLinks(s, kind, p, name, d, v, n, b);
    RefsAdd(s.vinodes, s.dentries, t.vinodes, d, t.dentries[d]);
    MakeFaces(s, kind, p, name, d, v, n, b);
    DentriesAdd(s, t, d, t.dentries[d]);
  }

  lemma MakeKeepsVinodes(s: State, kind: Kind, p: int, name: string, d: int, v: int, n: int, b: int)
    requires Inv(s) && Enabled(s, Make(kind, p, name, d, v, n, b))
    ensures var t := MakeStep(s, kind, p, name, d, v, n, b);
            n !in s.table && TableOk(t.dinodes, t.vinodes, t.table) && AgreeOk(t.dinodes, t.vinodes)
  {
    hide RefsOk, LinksOk, DentriesOk, Cached;
    TableLive(s.dinodes, s.vinodes, s.table, n);
  }

  lemma TableLive(dinodes: map<int, Inode>, vinodes: map<int, Vinode>, table: map<int, int>, n: int)
    requires TableOk(dinodes, vinodes, table)
    ensures n in table ==> n in dinodes
  {
    if n in table {
      var v := table[n];
      assert v in vinodes && table[vinodes[v].inum] == v;
    }
  }

  lemma MakeKeepsLinks(s: State, kind: Kind, p: int, name: string, d: int, v: int, n: int, b: int)
    requires Inv(s) && Enabled(s, Make(kind, p, name, d, v, n, b))
    ensures var t := MakeStep(s, kind, p, name, d, v, n, b); LinksOk(t.dinodes, t.entries)
  {
    hide RefsOk, DentriesOk, Cached, TableOk, Fiber;
    var t := MakeStep(s, kind, p, name, d, v, n, b);
    forall m | m in t.dinodes
      ensures LinkCountOk(t.dinodes[m], m, |Fiber(t.entries, m)|)
    {
      FiberAdd(s.entries, Key(Node(s, p).inum, name), n, m);
      if m == n {
        Unnamed(s.dinodes, s.entries, n);
      }
    }
  }

  /** A free inode number is named by no entry. */
  lemma Unnamed(dinodes: map<int, Inode>, entries: map<Key, int>, n: int)
    requires LinksOk(dinodes, entries) && n !in dinodes
    ensures Fiber(entries, n) == {}
  {
  }

  lemma MakeFaces(s: State, kind: Kind, p: int, name: string, d: int, v: int, n: int, b: int)
    requires Inv(s) && Enabled(s, Make(kind, p, name, d, v, n, b))
    ensures var t := MakeStep(s, kind, p, name, d, v, n, b); forall e :: e in s.dentries ==> SameFace(s, t, e)
    ensures n != ROOT && forall e :: IsDir(s, e) ==> Node(s, e).inum != n
  {
    hide DentriesOk, Cached;
  }

  lemma OpenKeepsInv(s: State, d: int)
    requires Inv(s) && Enabled(s, Open(d))
    ensures Inv(OpenStep(s, d))
  {
    hide TableOk, AgreeOk, LinksOk, DentriesOk, Fiber;
    var t := OpenStep(s, d);
    RefsSame(s.vinodes, s.dentries, t.vinodes, t.dentries);
    DentriesSame(s, t);
  }

  lemma WriteKeepsInv(s: State, d: int, more: seq<int>, upto: nat)
    requires Inv(s) && Enabled(s, Write(d, more, upto))
    ensures Inv(WriteStep(s, d, more, upto))
  {
    hide LinksOk, DentriesOk, Fiber;
    var t := WriteStep(s, d, more, upto);
    RefsSame(s.vinodes, s.dentries, t.vinodes, t.dentries);
    DentriesSame(s, t);
  }

  lemma CloseKeepsInv(s: State, d: int)
    requires Inv(s) && Enabled(s, Close(d))
    ensures Inv(CloseStep(s, d))
  {
    hide TableOk, AgreeOk, RefsOk, LinksOk, DentriesOk;
    var t := CloseStep(s, d);
    RefsKnown(s);
    if s.dentries[d].opens > 1 {
      RefsSame(s.vinodes, s.dentries, t.vinodes, t.dentries);
      DentriesSame(s, t);
    } else {
      CloseKeepsVinodes(s, d);
      RefsDrop(s.vinodes, s.dentries, t.vinodes, d);
      CloseFaces(s, d);
      DentriesDrop(s, t, d);
    }
  }

  lemma RefsKnown(s: State)
    requires RefsOk(s.vinodes, s.dentries)
    ensures forall d :: d in s.dentries ==> Backed(s, d) && s.dentries[d].opens >= 0
  {
  }

  lemma CloseKeepsVinodes(s: State, d: int)
    requires Inv(s) && Enabled(s, Close(d)) && s.dentries[d].opens == 1
    ensures var t := CloseStep(s, d);
            TableOk(t.dinodes, t.vinodes, t.table) && AgreeOk(t.dinodes, t.vinodes) && LinksOk(t.dinodes, t.entries)
  {
    hide RefsOk, DentriesOk, Fiber;
  }

  lemma CloseFaces(s: State, d: int)
    requires Inv(s) && Enabled(s, Close(d)) && s.dentries[d].opens == 1
    ensures var t := CloseStep(s, d); forall e :: e in s.dentries && e != d ==> SameFace(s, t, e)
    ensures DentryOk(s, d)
  {
    hide TableOk, AgreeOk, LinksOk, RefsOk;
    var t := CloseStep(s, d);
    RefsKnown(s);
    RefsDrop(s.vinodes, s.dentries, t.vinodes, d);
    RefsKnown(t);
  }

  lemma LinkKeepsInv(s: State, o: int, p: int, name: string, d: int)
    requires Inv(s) && Enabled(s, Link(o, p, name, d))
    ensures Inv(LinkStep(s, o, p, name, d))
  {
    hide TableOk, AgreeOk, RefsOk, LinksOk, DentriesOk, Cached;
    var t := LinkStep(s, o, p, name, d);
    LinkKeepsVinodes(s, o, p, name, d);
    LinkKeepsLinks(s, o, p, name, d);
    RefsAdd(s.vinodes, s.dentries, t.vinodes, d, t.dentries[d]);
    LinkFaces(s, o, p, name, d);
    DentriesAdd(s, t, d, t.dentries[d]);
  }

  lemma LinkKeepsVinodes(s: State, o: int, p: int, name: string, d: int)
    requires Inv(s) && Enabled(s, Link(o, p, name, d))
    ensures var t := LinkStep(s, o, p, name, d); TableOk(t.dinodes, t.vinodes, t.table) && AgreeOk(t.dinodes, t.vinodes)
  {
    hide RefsOk, DentriesOk, LinksOk, Cached;
  }

  lemma LinkKeepsLinks(s: State, o: int, p: int, name: string, d: int)
    requires Inv(s) && Enabled(s, Link(o, p, name, d))
    ensures var t := LinkStep(s, o, p, name, d); LinksOk(t.dinodes, t.entries)
  {
    hide RefsOk, DentriesOk, Cached, Fiber;
    var t := LinkStep(s, o, p, name, d);
    forall m | m in t.dinodes
      ensures LinkCountOk(t.dinodes[m], m, |Fiber(t.entries, m)|)
    {
      FiberAdd(s.entries, Key(Node(s, p).inum, name), Node(s, o).inum, m);
    }
  }

  lemma LinkFaces(s: State, o: int, p: int, name: string, d: int)
    requires Inv(s) && Enabled(s, Link(o, p, name, d))
    ensures var t := LinkStep(s, o, p, name, d); forall e :: e in s.dentries ==> SameFace(s, t, e)
    ensures Node(s, o).inum != ROOT
  {
    hide Cached, TableOk, LinksOk, RefsOk;
    RefsKnown(s);
    assert DentryOk(s, o);
  }

  /** What a dentry's entry, vinode and disk inode have in common. */
  lemma UnlinkFinds(s: State, d: int)
    requires Inv(s) && Enabled(s, Unlink(d))
    ensures d != 0 && DentryOk(s, d)
    ensures var n := Node(s, d).inum;
            && Place(s, d) in s.entries && s.entries[Place(s, d)] == n && n in s.dinodes && n != ROOT
            && s.dinodes[n].kind == FileKind
                && s.dinodes[n].nlinks == Node(s, d).inode.nlinks == |Fiber(s.entries, n)|
  {
    hide TableOk, RefsOk;
    assert DentryOk(s, d);
  }

  /** Neither assertion of unlink fires; the inode is freed exactly when its last entry goes. */
  lemma UnlinkIsSafe(s: State, d: int)
    requires Inv(s) && Enabled(s, Unlink(d))
    ensures UnlinkStep(s, d).Done?
    ensures var n, t := Node(s, d).inum, UnlinkStep(s, d).state;
            s.dentries[d].opens == 0 ==> (n in t.dinodes <==> Fiber(t.entries, n) != {})
    ensures s.dentries[d].opens > 0 ==> UnlinkStep(s, d).state == s
  {
    hide TableOk, RefsOk, AgreeOk, LinksOk, DentriesOk, Fiber;
    UnlinkFinds(s, d);
    var n := Node(s, d).inum;
    FiberDrop(s.entries, Place(s, d), n);
    if |Fiber(s.entries, n)| == 1 {
      NoEntryNoRef(s, d);
    }
  }

  lemma UnlinkKeepsInv(s: State, d: int)
    requires Inv(s) && Enabled(s, Unlink(d))
    ensures UnlinkStep(s, d).Done? && Inv(UnlinkStep(s, d).state)
  {
    hide TableOk, AgreeOk, RefsOk, LinksOk, DentriesOk, Fiber;
    UnlinkIsSafe(s, d);
    UnlinkFinds(s, d);
    var t := UnlinkStep(s, d).state;
    if s.dentries[d].opens == 0 {
      UnlinkKeepsVinodes(s, d);
      UnlinkKeepsLinks(s, d);
      RefsDrop(s.vinodes, s.dentries, t.vinodes, d);
      UnlinkFaces(s, d);
      DentriesDrop(s, t, d);
    }
  }

  lemma UnlinkKeepsVinodes(s: State, d: int)
    requires Inv(s) && Enabled(s, Unlink(d)) && s.dentries[d].opens == 0 && UnlinkStep(s, d).Done?
    requires Place(s, d) in s.entries
    requires var n := Node(s, d).inum; s.entries[Place(s, d)] == n && n in s.dinodes && s.dinodes[n].kind == FileKind
    ensures var t := UnlinkStep(s, d).state; TableOk(t.dinodes, t.vinodes, t.table) && AgreeOk(t.dinodes, t.vinodes)
  {
    hide LinksOk, RefsOk, DentriesOk, Fiber;
  }

  lemma UnlinkKeepsLinks(s: State, d: int)
    requires Inv(s) && Enabled(s, Unlink(d)) && s.dentries[d].opens == 0 && UnlinkStep(s, d).Done?
    ensures var t := UnlinkStep(s, d).state; LinksOk(t.dinodes, t.entries)
  {
    hide TableOk, AgreeOk, RefsOk, DentriesOk, Fiber;
    UnlinkFinds(s, d);
    var t := UnlinkStep(s, d).state;
    var n := Node(s, d).inum;
    forall m | m in s.dinodes
      ensures m in t.dinodes ==> LinkCountOk(t.dinodes[m], m, |Fiber(t.entries, m)|)
      ensures m !in t.dinodes ==> m == n && Fiber(t.entries, m) == {}
    {
      FiberDrop(s.entries, Place(s, d), m);
    }
    forall k | k in t.entries
      ensures t.entries[k] in t.dinodes && k.dir in t.dinodes && t.dinodes[k.dir].kind == DirKind
    {
      InLinkSet(t.entries, k);
    }
  }

  lemma InLinkSet(entries: map<Key, int>, k: Key)
    requires k in entries
    ensures k in Fiber(entries, entries[k])
  {
  }

  lemma UnlinkFaces(s: State, d: int)
    requires Inv(s) && Enabled(s, Unlink(d)) && s.dentries[d].opens == 0 && UnlinkStep(s, d).Done?
    requires UnlinkStep(s, d).state.dentries == s.dentries - {d}
    ensures var t := UnlinkStep(s, d).state; forall e :: e in s.dentries && e != d ==> SameFace(s, t, e)
  {
    hide TableOk, AgreeOk, LinksOk, DentriesOk, RefsOk, Fiber;
    var t := UnlinkStep(s, d).state;
    RefsKnown(s);
    RefsDrop(s.vinodes, s.dentries, t.vinodes, d);
    RefsKnown(t);
  }

  /** A new length of a directory changes nothing else. */
  lemma ResizeKeepsInv(s: State, p: int, size: int)
    requires Inv(s) && (Backed(s, p) ==> IsDir(s, p))
    ensures Inv(Resized(s, p, size))
  {
    hide TableOk, AgreeOk, LinksOk, DentriesOk, Fiber, Vids;
    var t := Resized(s, p, size);
    if t != s {
      RefsKnown(s);
      ResizeKeepsVinodes(s, p, size);
      ResizeKeepsLinks(s, p, size);
      RefsSame(s.vinodes, s.dentries, t.vinodes, t.dentries);
      DentriesSame(s, t);
    }
  }

  lemma ResizeKeepsVinodes(s: State, p: int, size: int)
    requires Inv(s) && IsDir(s, p)
    ensures var t := Resized(s, p, size); TableOk(t.dinodes, t.vinodes, t.table) && AgreeOk(t.dinodes, t.vinodes)
  {
    hide RefsOk, LinksOk, DentriesOk;
  }

  lemma ResizeKeepsLinks(s: State, p: int, size: int)
    requires Inv(s) && IsDir(s, p)
    ensures var t := Resized(s, p, size); LinksOk(t.dinodes, t.entries) && t.dinodes.Keys == s.dinodes.Keys
  {
    hide RefsOk, TableOk, DentriesOk, Fiber;
  }

  /** The parent directory is still there after the other changes of a step. */
  lemma ParentStays(s: State, e: Event)
    requires Inv(s) && Enabled(s, e)
    ensures e.Make? ==>
              var t := MakeStep(s, e.kind, e.parent, e.name, e.d, e.v, e.inum, e.block);
              IsDir(t, e.parent) && Node(t, e.parent) == Node(s, e.parent)
    ensures e.Link? ==>
              var t := LinkStep(s, e.from, e.parent, e.name, e.d);
              IsDir(t, e.parent) && Node(t, e.parent) == Node(s, e.parent)
    ensures e.Unlink? && UnlinkStep(s, e.d).Done? ==>
              var t, p := UnlinkStep(s, e.d).state, s.dentries[e.d].parent;
              IsDir(t, p) && Node(t, p) == Node(s, p)
  {
    hide TableOk, AgreeOk, RefsOk, LinksOk, Cached;
    if e.Unlink? {
      assert DentryOk(s, e.d);
    }
  }

  /** Every operation keeps the invariant and none of them panics. */
  lemma StepKeepsInv(s: State, e: Event)
    requires Inv(s) && Enabled(s, e)
    ensures Step(s, e).Done? && Inv(Step(s, e).state)
  {
    hide Inv, Cached, Resized;
    ParentStays(s, e);
    match e
    case Lookup(p, name, d, v) => LookupKeepsInv(s, p, name, d, v);
    case Make(kind, p, name, d, v, n, b) =>
      MakeKeepsInv(s, kind, p, name, d, v, n, b);
      ResizeKeepsInv(MakeStep(s, kind, p, name, d, v, n, b), p, Node(s, p).inode.size + ENTRY);
    case Open(d) => OpenKeepsInv(s, d);
    case Close(d) => CloseKeepsInv(s, d);
    case Write(d, more, upto) => WriteKeepsInv(s, d, more, upto);
    case Link(o, p, name, d) =>
      LinkKeepsInv(s, o, p, name, d);
      ResizeKeepsInv(LinkStep(s, o, p, name, d), p, Node(s, p).inode.size + ENTRY);
    case Unlink(d) =>
      UnlinkKeepsInv(s, d);
      var p := s.dentries[d].parent;
      ResizeKeepsInv(UnlinkStep(s, d).state, p, Node(s, p).inode.size - ENTRY);
  }

  // ---- the length of directories ----

  /** The directory of each entry. */
  ghost function Parents(entries: map<Key, int>): map<Key, int> {
    map k | k in entries :: k.dir
  }

  /** The entries of directory `n`. */
  ghost function Listed(entries: map<Key, int>, n: int): (a: set<Key>)
    ensures forall k :: k in a <==> k in entries && k.dir == n
  {
    Fiber(Parents(entries), n)
  }

  lemma ListedAdd(entries: map<Key, int>, k: Key, m: int, n: int)
    requires k !in entries
    ensures |Listed(entries[k := m], n)| == |Listed(entries, n)| + if k.dir == n then 1 else 0
  {
    assert Parents(entries[k := m]) == Parents(entries)[k := k.dir];
    FiberAdd(Parents(entries), k, k.dir, n);
  }

  lemma ListedDrop(entries: map<Key, int>, k: Key, n: int)
    requires k in entries
    ensures |Listed(entries - {k}, n)| == |Listed(entries, n)| - if k.dir == n then 1 else 0
  {
    assert Parents(entries - {k}) == Parents(entries) - {k};
    FiberDrop(Parents(entries), k, n);
  }

  /** A directory is as long as its entries, and they fit its one block. */
  ghost predicate LengthOk(s: State, n: int)
    requires n in s.dinodes
  {
    s.dinodes[n].kind == DirKind ==>
      s.dinodes[n].size == ENTRY * |Listed(s.entries, n)| <= BLKSIZE && |s.dinodes[n].blocks| == 1
  }

  ghost predicate LengthsOk(s: State) {
    forall n :: n in s.dinodes ==> LengthOk(s, n)
  }

  /** There is room exactly while the directory has fewer than 128 entries. */
  lemma RoomIsCount(s: State, p: int)
    requires Inv(s) && LengthsOk(s) && IsDir(s, p)
    ensures Room(s, p) <==> |Listed(s.entries, Node(s, p).inum)| < 128
  {
    hide RefsOk, LinksOk, DentriesOk, Listed, TableOk;
    assert LengthOk(s, Node(s, p).inum);
  }

  lemma MakeKeepsLengths(s: State, kind: Kind, p: int, name: string, d: int, v: int, n: int, b: int)
    requires Inv(s) && LengthsOk(s) && Enabled(s, Make(kind, p, name, d, v, n, b))
    ensures LengthsOk(Step(s, Make(kind, p, name, d, v, n, b)).state)
  {
    hide RefsOk, DentriesOk, Listed, TableOk, Cached;
    var e := Make(kind, p, name, d, v, n, b);
    ParentStays(s, e);
    var t, key := Step(s, e).state, Key(Node(s, p).inum, name);
    forall m | m in t.dinodes
      ensures LengthOk(t, m)
    {
      ListedAdd(s.entries, key, n, m);
      if m == n {
        assert Listed(s.entries, n) == {};
      } else {
        assert LengthOk(s, m);
      }
    }
  }

  lemma LinkKeepsLengths(s: State, o: int, p: int, name: string, d: int)
    requires Inv(s) && LengthsOk(s) && Enabled(s, Link(o, p, name, d))
    ensures LengthsOk(Step(s, Link(o, p, name, d)).state)
  {
    hide RefsOk, DentriesOk, Listed, TableOk, LinksOk, Cached;
    var e := Link(o, p, name, d);
    ParentStays(s, e);
    var t := Step(s, e).state;
    forall m | m in t.dinodes
      ensures LengthOk(t, m)
    {
      ListedAdd(s.entries, Key(Node(s, p).inum, name), Node(s, o).inum, m);
      assert LengthOk(s, m);
    }
  }

  lemma UnlinkKeepsLengths(s: State, d: int)
    requires Inv(s) && LengthsOk(s) && Enabled(s, Unlink(d))
    ensures Step(s, Unlink(d)).Done? && LengthsOk(Step(s, Unlink(d)).state)
  {
    hide RefsOk, DentriesOk, Listed, TableOk, LinksOk, Fiber;
    UnlinkIsSafe(s, d);
    UnlinkFinds(s, d);
    ParentStays(s, Unlink(d));
    var t := Step(s, Unlink(d)).state;
    forall m | m in t.dinodes
      ensures LengthOk(t, m)
    {
      ListedDrop(s.entries, Place(s, d), m);
      assert LengthOk(s, m);
    }
  }

  lemma CloseKeepsLengths(s: State, d: int)
    requires Inv(s) && LengthsOk(s) && Enabled(s, Close(d))
    ensures LengthsOk(CloseStep(s, d))
  {
    hide RefsOk, DentriesOk, Listed, TableOk, LinksOk;
    var t := CloseStep(s, d);
    forall m | m in t.dinodes
      ensures LengthOk(t, m)
    {
      assert LengthOk(s, m);
    }
  }

  /** Every operation keeps the lengths of the directories exact. */
  lemma StepKeepsLengths(s: State, e: Event)
    requires Inv(s) && LengthsOk(s) && Enabled(s, e)
    ensures Step(s, e).Done? && LengthsOk(Step(s, e).state)
  {
    hide Inv, LengthsOk, Cached, Resized;
    match e
    case Lookup(p, name, d, v) => SameLengths(s, LookupStep(s, p, name, d, v));
    case Make(kind, p, name, d, v, n, b) => MakeKeepsLengths(s, kind, p, name, d, v, n, b);
    case Open(d) => SameLengths(s, OpenStep(s, d));
    case Close(d) => CloseKeepsLengths(s, d);
    case Write(d, more, upto) => SameLengths(s, WriteStep(s, d, more, upto));
    case Link(o, p, name, d) => LinkKeepsLengths(s, o, p, name, d);
    case Unlink(d) => UnlinkKeepsLengths(s, d);
  }

  lemma SameLengths(s: State, t: State)
    requires LengthsOk(s) && t.dinodes == s.dinodes && t.entries == s.entries
    ensures LengthsOk(t)
  {
    forall m | m in t.dinodes
      ensures LengthOk(t, m)
    {
      assert LengthOk(s, m);
    }
  }
}
