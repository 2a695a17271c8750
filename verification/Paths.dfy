/** Path names and the dentry cache (kernel/vfs.c, kernel/proc_file.c): lookup_final_dentry on cached
    dentries, do_rcwd and do_ccwd. */
module Paths {
  import opened Basics
  import opened StrTok
  import HashTables

  /** MAX_PATH_LEN */
  const MAX_PATH: nat := 30

  const NIL := -1

  /** The key of a dentry in the hash table. */
  datatype Key = Key(parent: int, name: string)

  // ---- the hash of a dentry ----

  const WORD := 0x1_0000_0000_0000_0000

  function HashName(h: int, name: string): int
    decreases |name|
  {
    if name == "" then h else HashName((h * 33 + name[0] as int) % WORD, name[1..])
  }

  function DentryHash(k: Key): (r: int)
    ensures 0 <= r < HashTables.SIZE
  {
    (HashName(5381, k.name) * 33 + k.parent) % WORD % HashTables.SIZE
  }

  /** dentry_hash_func */
  method ComputeDentryHash(parent: int, name: string) returns (r: int)
    ensures r == DentryHash(Key(parent, name))
  {
    var hash, i := 5381, 0;
    while i < |name|
      invariant 0 <= i <= |name| && HashName(hash, name[i..]) == HashName(5381, name)
    {
      hash := (hash * 33 + name[i] as int) % WORD;
      i := i + 1;
    }
    r := (hash * 33 + parent) % WORD % HashTables.SIZE;
  }

  // ---- walking the cache ----

  /** Where a lookup in the cache ends: at a dentry, or at the first name that is not cached. */
  datatype Found = Hit(d: int, parent: int) | Miss(parent: int, name: string)

  function ParentOf(dentries: map<int, Key>, d: int): int {
    if d in dentries then dentries[d].parent else NIL
  }

  /** The meaning of a list of path components, from dentry `at`. */
  function Walk(dentries: map<int, Key>, cache: map<Key, int>, at: int, parent: int, names: seq<string>): Found
    decreases |names|
  {
    if names == [] then Hit(at, parent)
    else if names[0] == "." then Walk(dentries, cache, at, parent, names[1..])
    else if names[0] == ".." then
      var up := ParentOf(dentries, at);
      if up != NIL then Walk(dentries, cache, up, ParentOf(dentries, up), names[1..])
      else Walk(dentries, cache, at, parent, names[1..])
    else if Key(at, names[0]) in cache then Walk(dentries, cache, cache[Key(at, names[0])], at, names[1..])
    else Miss(at, names[0])
  }

  /** A name that a directory entry can have. */
  predicate NameOk(name: string) {
    name != "" && '/' !in name && NUL !in name && name != "." && name != ".."
  }

  /** The cache is the dentry tree: each dentry is under its parent and name, and nothing else is. */
  ghost predicate TreeOk(dentries: map<int, Key>, cache: map<Key, int>, root: int) {
    && root in dentries && dentries[root].parent == NIL && NIL !in dentries
    && (forall d :: d in dentries ==> dentries[d] in cache && cache[dentries[d]] == d)
    && (forall k :: k in cache ==> cache[k] in dentries && dentries[cache[k]] == k)
    && (forall d :: d in dentries && d != root ==> NameOk(dentries[d].name))
  }

  /** The parent chain of `d` ends after `n` steps, at the root or at NULL. */
  ghost predicate Chain(dentries: map<int, Key>, root: int, d: int, n: nat)
    decreases n
  {
    if d == root || d == NIL then n == 0
    else n > 0 && d in dentries && Chain(dentries, root, dentries[d].parent, n - 1)
  }

  ghost function Top(dentries: map<int, Key>, root: int, d: int, n: nat): int
    requires Chain(dentries, root, d, n)
    decreases n
  {
    if n == 0 then d else Top(dentries, root, dentries[d].parent, n - 1)
  }

  /** The names on the way from the top to `d`. */
  ghost function Names(dentries: map<int, Key>, root: int, d: int, n: nat): (s: seq<string>)
    requires Chain(dentries, root, d, n)
    ensures |s| == n
    decreases n
  {
    if n == 0 then [] else Names(dentries, root, dentries[d].parent, n - 1) + [dentries[d].name]
  }

  function Joined(names: seq<string>): string {
    if names == [] then "" else "/" + names[0] + Joined(names[1..])
  }

  /** What do_rcwd writes. */
  ghost function PathTo(dentries: map<int, Key>, root: int, d: int, n: nat): string
    requires Chain(dentries, root, d, n)
  {
    if d == root then "/" else Joined(Names(dentries, root, d, n))
  }

  /** Every dentry is below the root. */
  ghost predicate RootedOk(dentries: map<int, Key>, root: int, depth: map<int, nat>) {
    forall d :: d in dentries ==>
      d in depth && Chain(dentries, root, d, depth[d]) && Top(dentries, root, d, depth[d]) == root
  }

  /** A chain stays what it is as long as the dentries on it stay. */
  lemma {:induction false} ChainKept(dentries: map<int, Key>, dentries': map<int, Key>, root: int, d: int, n: nat,
                                     gone: set<int>)
    requires Chain(dentries, root, d, n) && d !in gone
    requires forall e :: e in dentries && e !in gone ==>
        e in dentries' && dentries'[e] == dentries[e] && dentries[e].parent !in gone
    ensures Chain(dentries', root, d, n) && Top(dentries', root, d, n) == Top(dentries, root, d, n)
    decreases n
  {
    if n > 0 {
      ChainKept(dentries, dentries', root, dentries[d].parent, n - 1, gone);
    }
  }

  lemma AddKeepsTree(dentries: map<int, Key>, cache: map<Key, int>, root: int, depth: map<int, nat>, d: int, key: Key)
    requires TreeOk(dentries, cache, root) && RootedOk(dentries, root, depth)
    requires d !in dentries && d != NIL && key.parent in dentries && NameOk(key.name) && key !in cache
    ensures TreeOk(dentries[d := key], cache[key := d], root) && key.parent in depth
    ensures RootedOk(dentries[d := key], root, depth[d := depth[key.parent] + 1])
  {
    var after := dentries[d := key];
    forall e | e in dentries
      ensures Chain(after, root, e, depth[e]) && Top(after, root, e, depth[e]) == root
    {
      ChainKept(dentries, after, root, e, depth[e], {});
    }
  }

  lemma DropKeepsTree(dentries: map<int, Key>, cache: map<Key, int>, root: int, depth: map<int, nat>, d: int)
    requires TreeOk(dentries, cache, root) && RootedOk(dentries, root, depth)
    requires d in dentries && d != root && forall e :: e in dentries && e != root ==> dentries[e].parent != d
    ensures dentries[d] in cache && TreeOk(dentries - {d}, cache - {dentries[d]}, root)
    ensures RootedOk(dentries - {d}, root, depth)
  {
    var after := dentries - {d};
    forall e | e in after
      ensures Chain(after, root, e, depth[e]) && Top(after, root, e, depth[e]) == root
    {
      ChainKept(dentries, after, root, e, depth[e], {d});
    }
  }

  /** The mounted root alone. */
  lemma RootAlone(root: int)
    requires root != NIL
    ensures var dentries := map[root := Key(NIL, "/")];
            && TreeOk(dentries, map[Key(NIL, "/") := root], root) && RootedOk(dentries, root, map[root := 0])
            && DirsOk(dentries, {root}, root, root)
  {
  }

  // ---- round trip ----

  /** strtok undoes the joining. */
  lemma {:induction false} TokensOfJoined(names: seq<string>)
    requires forall i :: 0 <= i < |names| ==> names[i] != "" && '/' !in names[i]
    ensures Tokens(Joined(names), "/") == names
  {
    hide Tokens;
    if names != [] {
      TokensOfJoined(names[1..]);
      OneMoreWord(names[0], Joined(names[1..]));
      assert names == [names[0]] + names[1..];
    } else {
      NoTokens("/");
    }
  }

  lemma OneMoreWord(name: string, rest: string)
    requires name != "" && '/' !in name && (rest != "" ==> rest[0] == '/')
    ensures Tokens("/" + name + rest, "/") == [name] + Tokens(rest, "/")
  {
    hide Tokens;
    var s, w := "/" + name + rest, |name|;
    assert s[1..1 + w] == name;
    assert forall i :: 1 <= i < 1 + w ==> s[i] == name[i - 1];
    TokensStep(s, "/", 1, w);
    if rest != "" {
      TokensSkipOne(rest, "/");
      assert s[1 + w + 1..] == rest[1..];
    } else {
      NoTokens("/");
    }
  }

  /** One more plain name. */
  lemma WalkOneMore(dentries: map<int, Key>, cache: map<Key, int>, at: int, parent: int, names: seq<string>,
                    name: string)
    requires NameOk(name) && Walk(dentries, cache, at, parent, names).Hit?
    ensures var d := Walk(dentries, cache, at, parent, names).d;
            Walk(dentries, cache, at, parent, names + [name]) ==
              if Key(d, name) in cache then Hit(cache[Key(d, name)], d) else Miss(d, name)
  {
    WalkAppend(dentries, cache, at, parent, names, [name]);
    assert [name][1..] == [];
  }

  lemma {:induction false} WalkDown(dentries: map<int, Key>, cache: map<Key, int>, root: int, d: int, n: nat)
    requires TreeOk(dentries, cache, root) && Chain(dentries, root, d, n) && Top(dentries, root, d, n) == root
    ensures var r := Walk(dentries, cache, root, root, Names(dentries, root, d, n)); r.Hit? && r.d == d
    ensures forall i :: 0 <= i < n ==> NameOk(Names(dentries, root, d, n)[i])
    decreases n
  {
    if n > 0 {
      var up := dentries[d].parent;
      WalkDown(dentries, cache, root, up, n - 1);
      WalkOneMore(dentries, cache, root, root, Names(dentries, root, up, n - 1), dentries[d].name);
    }
  }

  /** Looking up the path that do_rcwd writes for a cached directory leads back to that dentry. */
  lemma PathRoundTrip(dentries: map<int, Key>, cache: map<Key, int>, root: int, d: int, n: nat)
    requires TreeOk(dentries, cache, root) && Chain(dentries, root, d, n) && Top(dentries, root, d, n) == root
    ensures var r := Walk(dentries, cache, root, root, Tokens(PathTo(dentries, root, d, n), "/")); r.Hit? && r.d == d
  {
    WalkDown(dentries, cache, root, d, n);
    if d == root {
      TokensSkipOne("/", "/");
      NoTokens("/");
      assert "/"[1..] == "";
    } else {
      TokensOfJoined(Names(dentries, root, d, n));
    }
  }

  // ---- what a path means ----

  /** A path as names from the root: "." says nothing, ".." takes the last name back, the root stays. */
  function Normalized(names: seq<string>, path: seq<string>): seq<string>
    decreases |path|
  {
    if path == [] then names
    else if path[0] == "." then Normalized(names, path[1..])
    else if path[0] == ".." then Normalized(if names == [] then [] else names[..|names| - 1], path[1..])
    else Normalized(names + [path[0]], path[1..])
  }

  /** The names on the way from the root to a cached dentry. */
  ghost function NamesOf(dentries: map<int, Key>, root: int, depth: map<int, nat>, d: int): seq<string>
    requires RootedOk(dentries, root, depth) && d in dentries
  {
    Names(dentries, root, d, depth[d])
  }

  lemma {:induction false} OneChain(dentries: map<int, Key>, root: int, d: int, n: nat, m: nat)
    requires Chain(dentries, root, d, n) && Chain(dentries, root, d, m)
    ensures n == m
    decreases n
  {
    if n > 0 {
      OneChain(dentries, root, dentries[d].parent, n - 1, m - 1);
    }
  }

  /** The parent of a dentry other than the root is cached, one step up. */
  lemma OneUp(dentries: map<int, Key>, cache: map<Key, int>, root: int, depth: map<int, nat>, d: int)
    requires TreeOk(dentries, cache, root) && RootedOk(dentries, root, depth) && d in dentries && d != root
    ensures var up := dentries[d].parent;
            && up in dentries && up != NIL && depth[d] == depth[up] + 1
            && NamesOf(dentries, root, depth, d) == NamesOf(dentries, root, depth, up) + [dentries[d].name]
  {
    var up, n := dentries[d].parent, depth[d];
    assert Chain(dentries, root, up, n - 1) && Top(dentries, root, up, n - 1) == root;
    assert up in dentries;
    OneChain(dentries, root, up, n - 1, depth[up]);
  }

  lemma AtTheRoot(dentries: map<int, Key>, cache: map<Key, int>, root: int, depth: map<int, nat>)
    requires TreeOk(dentries, cache, root) && RootedOk(dentries, root, depth)
    ensures depth[root] == 0 && NamesOf(dentries, root, depth, root) == []
  {
    assert Chain(dentries, root, root, depth[root]);
  }

  /** Where a lookup ends has the names that the path means, from the names of where it began. */
  lemma {:induction false} WalkNormalizes(dentries: map<int, Key>, cache: map<Key, int>, root: int,
                                          depth: map<int, nat>, at: int, parent: int, path: seq<string>)
    requires TreeOk(dentries, cache, root) && RootedOk(dentries, root, depth) && at in dentries
    requires Walk(dentries, cache, at, parent, path).Hit?
    ensures var d := Walk(dentries, cache, at, parent, path).d;
            && d in dentries
            && NamesOf(dentries, root, depth, d) == Normalized(NamesOf(dentries, root, depth, at), path)
    decreases |path|
  {
    hide TreeOk, RootedOk, NamesOf;
    if path != [] {
      if path[0] == "." {
        WalkNormalizes(dentries, cache, root, depth, at, parent, path[1..]);
      } else if path[0] == ".." {
        WalkUp(dentries, cache, root, depth, at);
        var up := ParentOf(dentries, at);
        if up != NIL {
          WalkNormalizes(dentries, cache, root, depth, up, ParentOf(dentries, up), path[1..]);
        } else {
          WalkNormalizes(dentries, cache, root, depth, at, parent, path[1..]);
        }
      } else {
        WalkInto(dentries, cache, root, depth, at, path[0]);
        WalkNormalizes(dentries, cache, root, depth, cache[Key(at, path[0])], at, path[1..]);
      }
    }
  }

  lemma WalkUp(dentries: map<int, Key>, cache: map<Key, int>, root: int, depth: map<int, nat>, at: int)
    requires TreeOk(dentries, cache, root) && RootedOk(dentries, root, depth) && at in dentries
    ensures var up, names := ParentOf(dentries, at), NamesOf(dentries, root, depth, at);
            if up == NIL then names == []
            else up in dentries && names != [] && NamesOf(dentries, root, depth, up) == names[..|names| - 1]
  {
    if at == root {
      AtTheRoot(dentries, cache, root, depth);
    } else {
      OneUp(dentries, cache, root, depth, at);
    }
  }

  lemma WalkInto(dentries: map<int, Key>, cache: map<Key, int>, root: int, depth: map<int, nat>, at: int, name: string)
    requires TreeOk(dentries, cache, root) && RootedOk(dentries, root, depth) && at in dentries
    requires Key(at, name) in cache
    ensures var d := cache[Key(at, name)];
            d in dentries && NamesOf(dentries, root, depth, d) == NamesOf(dentries, root, depth, at) + [name]
  {
    OneUp(dentries, cache, root, depth, cache[Key(at, name)]);
  }

  /** Into a directory and back. */
  lemma DownAndUp(dentries: map<int, Key>, cache: map<Key, int>, root: int, p: int, parent: int, name: string)
    requires TreeOk(dentries, cache, root) && p in dentries && NameOk(name) && Key(p, name) in cache
    ensures var r := Walk(dentries, cache, p, parent, [name, ".."]); r.Hit? && r.d == p
  {
    var path := [name, ".."];
    assert path[1..] == [".."] && [".."][1..] == [];
  }

  /** Nothing is above the root. */
  lemma UpFromRoot(dentries: map<int, Key>, cache: map<Key, int>, root: int, parent: int)
    requires TreeOk(dentries, cache, root)
    ensures Walk(dentries, cache, root, parent, [".."]) == Hit(root, parent)
  {
    assert [".."][1..] == [];
  }

  function Ups(n: nat): seq<string> {
    if n == 0 then [] else [".."] + Ups(n - 1)
  }

  lemma UpToken()
    ensures Tokens("..", "/") == [".."]
  {
    hide Tokens;
    TokensStep("..", "/", 0, 2);
    assert ".."[0..2] == "..";
  }

  /** ".." leads to the parent, a directory. */
  lemma UpOne(dentries: map<int, Key>, cache: map<Key, int>, dirs: set<int>, root: int, d: int)
    requires TreeOk(dentries, cache, root) && DirsOk(dentries, dirs, root, d)
    ensures var up := if d == root then root else dentries[d].parent;
            var r := Walk(dentries, cache, d, d, [".."]);
            r.Hit? && r.d == up && up in dirs
  {
    assert [".."][1..] == [];
  }

  /** As many times ".." as a dentry is deep lead to the root, and fewer do not. */
  lemma {:induction false} UpToTheRoot(dentries: map<int, Key>, cache: map<Key, int>, root: int, depth: map<int, nat>,
                                       d: int, parent: int, n: nat)
    requires TreeOk(dentries, cache, root) && RootedOk(dentries, root, depth) && d in dentries && n <= depth[d]
    ensures var r := Walk(dentries, cache, d, parent, Ups(n)); r.Hit? && (r.d == root <==> n == depth[d])
    decreases n
  {
    if d == root {
      AtTheRoot(dentries, cache, root, depth);
    } else {
      OneUp(dentries, cache, root, depth, d);
      if n > 0 {
        assert Ups(n)[1..] == Ups(n - 1);
        var up := dentries[d].parent;
        UpToTheRoot(dentries, cache, root, depth, up, ParentOf(dentries, up), n - 1);
      }
    }
  }

  /** The names of a cached dentry stay while the cache grows. */
  lemma {:induction false} NamesKept(dentries: map<int, Key>, dentries': map<int, Key>, root: int, d: int, n: nat,
                                     m: nat)
    requires Chain(dentries, root, d, n) && Chain(dentries', root, d, m)
    requires forall e :: e in dentries ==> e in dentries' && dentries'[e] == dentries[e]
    ensures Names(dentries', root, d, m) == Names(dentries, root, d, n)
    decreases n
  {
    if n > 0 {
      NamesKept(dentries, dentries', root, dentries[d].parent, n - 1, m - 1);
    }
  }

  // ---- the kernel's side ----

  /** Directories are cached dentries, the current directory is one, and only directories have dentries
      below them. */
  ghost predicate DirsOk(dentries: map<int, Key>, dirs: set<int>, root: int, cwd: int) {
    && dirs <= dentries.Keys && root in dirs && cwd in dirs
    && (forall d :: d in dentries && d != root ==> dentries[d].parent in dirs)
  }

  /** A name in a directory on disk, and what is there. */
  datatype Entry = Entry(dir: int, name: string)
  datatype Node = Node(inum: int, isDir: bool)

  /** Pages from `next` on are neither dentries nor nodes of the hash table. */
  ghost predicate Above(dentries: map<int, Key>, t: HashTables.Table<Key, int>, next: int) {
    && next >= HashTables.SIZE
    && (forall d :: d in dentries ==> d < next)
    && (forall x :: x >= next ==> HashTables.Unused(t, x))
  }

  lemma FileIsNotRoot(dentries: map<int, Key>, cache: map<Key, int>, dirs: set<int>, root: int, cwd: int, d: int)
    requires TreeOk(dentries, cache, root) && DirsOk(dentries, dirs, root, cwd) && d !in dirs
    ensures NIL !in dentries && d != root
  {
  }

  lemma PageIsNew(dentries: map<int, Key>, t: HashTables.Table<Key, int>, next: int)
    requires Above(dentries, t, next)
    ensures next !in dentries && next >= HashTables.SIZE && HashTables.Unused(t, next + 1)
  {
  }

  lemma AddAbove(dentries: map<int, Key>, t: HashTables.Table<Key, int>, t': HashTables.Table<Key, int>, d: int,
                 key: Key)
    requires Above(dentries, t, d) && forall x :: x != d + 1 && HashTables.Unused(t, x) ==> HashTables.Unused(t', x)
    ensures Above(dentries[d := key], t', d + 2)
  {
    hide HashTables.Unused;
  }

  lemma AddKeepsDirs(dentries: map<int, Key>, dirs: set<int>, root: int, cwd: int, d: int, key: Key, isDir: bool)
    requires DirsOk(dentries, dirs, root, cwd) && key.parent in dirs && d !in dentries
    ensures key.parent in dentries && d !in dirs
    ensures DirsOk(dentries[d := key], if isDir then dirs + {d} else dirs, root, cwd)
  {
  }

  class Vfs {
    const root: int
    var dentries: map<int, Key>
    /** dentries of directories */
    var dirs: set<int>
    /** the inode behind each dentry */
    var inums: map<int, int>
    /** what the file systems have on disk */
    var disk: map<Entry, Node>
    const table: HashTables.HashTable<Key, int>
    const strtok: Tokenizer
    var cwd: int
    /** the next page of alloc_page */
    var nextPage: int

    /** how far each dentry is below the root */
    ghost var depth: map<int, nat>

    ghost predicate Valid()
      reads this, table
    {
      && table.Valid() && table.hash == DentryHash
      && TreeOk(dentries, table.contents, root) && RootedOk(dentries, root, depth)
      && DirsOk(dentries, dirs, root, cwd) && inums.Keys == dentries.Keys
      && Above(dentries, table.View(), nextPage)
    }

    /** The names that a path means, from the current directory or from the root. */
    ghost function Meaning(path: string): seq<string>
      requires Valid()
      reads this, table
    {
      var start := if path != "" && path[0] == '/' then root else cwd;
      Normalized(NamesOf(dentries, root, depth, start), Tokens(path, "/"))
    }

    /** vfs_init and the mount of the root file system. */
    constructor (inum: int, disk: map<Entry, Node>)
      ensures Valid() && dentries == map[root := Key(NIL, "/")] && dirs == {root} && cwd == root
      ensures fresh(table) && fresh(strtok) && this.disk == disk && inums == map[root := inum]
    {
      hide HashTables.TableOk, TreeOk, RootedOk, DirsOk, DentryHash, HashTables.Unused;
      root, cwd := HashTables.SIZE, HashTables.SIZE;
      dentries, dirs, depth := map[HashTables.SIZE := Key(NIL, "/")], {HashTables.SIZE}, map[HashTables.SIZE := 0];
      inums, this.disk := map[HashTables.SIZE := inum], disk;
      table := new HashTables.HashTable(DentryHash);
      strtok := new Tokenizer();
      nextPage := HashTables.SIZE + 2;
      new;
      RootAlone(root);
      var ok := table.Put(Key(NIL, "/"), root, HashTables.SIZE + 1);
    }

    /** alloc_vfs_dentry and hash_put_dentry: a name that is not cached yet gets a dentry. */
    method AddDentry(key: Key, inum: int, isDir: bool) returns (d: int)
      requires Valid() && key.parent in dirs && NameOk(key.name) && key !in table.contents
      modifies this`dentries, this`dirs, this`inums, this`nextPage, this`depth, table
      ensures Valid() && d !in old(dentries) && table.contents == old(table.contents)[key := d]
      ensures dentries == old(dentries)[d := key] && inums == old(inums)[d := inum]
      ensures d !in old(dirs) && dirs == if isDir then old(dirs) + {d} else old(dirs)
    {
      hide HashTables.TableOk, TreeOk, RootedOk, DentryHash, HashTables.Unused, Above, DirsOk;
      d := nextPage;
      ghost var before := table.View();
      PageIsNew(dentries, before, d);
      AddKeepsDirs(dentries, dirs, root, cwd, d, key, isDir);
      AddKeepsTree(dentries, table.contents, root, depth, d, key);
      var ok := table.Put(key, d, d + 1);
      AddAbove(dentries, before, table.View(), d, key);
      nextPage := nextPage + 2;
      dentries := dentries[d := key];
      inums := inums[d := inum];
      depth := depth[d := depth[key.parent] + 1];
      if isDir {
        dirs := dirs + {d};
      }
    }

    /** hash_erase_dentry and free_vfs_dentry, for the dentry of a file: directories stay cached. */
    method DropDentry(d: int) returns (ok: bool)
      requires Valid() && d in dentries && d !in dirs
      modifies this`dentries, this`inums, table
      ensures Valid() && ok && dentries == old(dentries) - {d}
          && table.contents == old(table.contents) - {old(dentries)[d]}
    {
      hide HashTables.TableOk, TreeOk, RootedOk, DentryHash, HashTables.Unused;
      assert NIL !in dentries && d != root by { FileIsNotRoot(dentries, table.contents, dirs, root, cwd, d); }
      var key := dentries[d];
      DropKeepsTree(dentries, table.contents, root, depth, d);
      ok := table.Erase(key);
      dentries := dentries - {d};
      inums := inums - {d};
    }

    /** The path that do_rcwd writes for any cached dentry leads lookup back to it. */
    lemma RoundTrip(d: int)
      requires Valid() && d in dentries
      ensures d in depth && Chain(dentries, root, d, depth[d]) && Top(dentries, root, d, depth[d]) == root
      ensures var r := Walk(dentries, table.contents, root, root, Tokens(PathTo(dentries, root, d, depth[d]), "/"));
              r.Hit? && r.d == d
    {
      hide TreeOk, Walk, Tokens, PathTo, HashTables.TableOk, HashTables.Unused;
      PathRoundTrip(dentries, table.contents, root, d, depth[d]);
    }

    /** do_rcwd: the path of the current directory. Its error exit is never taken. */
    method Rcwd() returns (ok: bool, path: string)
      requires Valid() && cwd in depth && depth[cwd] <= MAX_PATH
      ensures ok && Chain(dentries, root, cwd, depth[cwd]) && path == PathTo(dentries, root, cwd, depth[cwd])
    {
      hide HashTables.TableOk, HashTables.Unused, Tokens, Walk;
      RoundTrip(cwd);
      if cwd == root {
        return true, "/";
      }
      var temp;
      ok, temp := Ancestors(depth[cwd]);
      path := "";
      if ok {
        path := JoinNames(temp);
      }
    }

    /** The loop up to the root: the names on the way, the lowest first. */
    method Ancestors(ghost n: nat) returns (ok: bool, temp: seq<string>)
      requires Chain(dentries, root, cwd, n) && root != NIL
      ensures ok <==> Top(dentries, root, cwd, n) == root
      ensures ok ==> Reversed(temp) == Names(dentries, root, cwd, n)
    {
      hide Chain, Top, Names, Reversed;
      temp := [];
      var iter := cwd;
      ghost var left := n;
      ClimbStarts(dentries, root, cwd, n);
      while iter != root && iter != NIL
        invariant 0 <= left <= n && Climbed(dentries, root, cwd, n, iter, left, temp)
        decreases left
      {
        ClimbOne(dentries, root, cwd, n, iter, left, temp);
        temp := temp + [dentries[iter].name];
        iter := dentries[iter].parent;
        left := left - 1;
      }
      ClimbEnds(dentries, root, cwd, n, iter, left, temp);
      ok := iter != NIL;
    }

    /** One plain component: the hash table first, then the directory on disk. */
    method Component(at: int, name: string) returns (r: Option<int>)
      requires Valid() && at in dentries && NameOk(name)
      modifies this`dentries, this`dirs, this`inums, this`nextPage, this`depth, table
      ensures Valid() && Grew(old(dentries), old(table.contents), dentries, table.contents)
      ensures OnlyFromDisk(old(dentries), dentries, inums, dirs, disk)
      ensures SameNodes(old(dentries), old(inums), old(dirs), inums, dirs)
      ensures r.Some? ==>
                Key(at, name) in table.contents && table.contents[Key(at, name)] == r.value
                && r.value in dentries
      ensures r.None? ==> Key(at, name) !in table.contents && (at in dirs ==> Entry(inums[at], name) !in disk)
    {
      hide HashTables.TableOk, RootedOk, HashTables.Unused, Above, DirsOk, DentryHash, Grew, OnlyFromDisk, SameNodes,
          TreeOk;
      ghost var s := Snapshot(dentries, table.contents, inums, dirs);
      NothingLoaded(dentries, table.contents, inums, dirs, disk);
      SameAsBefore(s);
      r := table.Get(Key(at, name));
      if r.Some? {
        CachedIsDentry(dentries, table.contents, root, Key(at, name));
        return;
      }
      var entry := Entry(inums[at], name);
      if at !in dirs || entry !in disk {
        return;
      }
      var d := AddDentry(Key(at, name), disk[entry].inum, disk[entry].isDir);
      LoadedOne(s, Key(at, name), d, disk);
      r := Some(d);
    }

    /** lookup_final_dentry: the walk over the components of the path, in the cache as it is afterwards. The
        cache grows only by names that are on disk, and a miss is a name that is neither cached nor there. */
    method Lookup(path: string, from: int) returns (r: Found)
      requires Valid() && |path| < MAX_PATH && NUL !in path && from in dentries
      modifies strtok, this`dentries, this`dirs, this`inums, this`nextPage, this`depth, table
      ensures Valid() && Grew(old(dentries), old(table.contents), dentries, table.contents)
      ensures OnlyFromDisk(old(dentries), dentries, inums, dirs, disk)
      ensures var start := if path != "" && path[0] == '/' then root else from;
              r == Walk(dentries, table.contents, start, start, Tokens(path, "/"))
      ensures r.Hit? ==> r.d in dentries
      ensures r.Hit? ==>
                var start := if path != "" && path[0] == '/' then root else from;
                var names := NamesOf(old(dentries), root, old(depth), start);
                NamesOf(dentries, root, depth, r.d) == Normalized(names, Tokens(path, "/"))
      ensures r.Miss? ==> r.parent in dentries && (r.parent in dirs ==> Entry(inums[r.parent], r.name) !in disk)
    {
      hide Valid, Tokens, CString, Cut, AtToken, RestOf, Walk, OnlyFromDisk, Grew, PlainWord, AllPlain, SameNodes;
      hide RootedOk, NamesOf, Normalized;
      var copy := CopyPath(path);
      Known();
      var at := if path != "" && path[0] == '/' then root else from;
      var parent := at;
      ghost var start, k, all := at, 0, Tokens(path, "/");
      WalkNowhere(dentries, table.contents, at, at);
      NothingLoaded(dentries, table.contents, inums, dirs, disk);
      TokensPlain(path);
      var token := strtok.Begin(copy, "/");
      FirstNames(copy[..], strtok.current, token, path);
      assert all[0..] == all && all[..0] == [];
      while token >= 0
        invariant Valid() && strtok.Valid() && strtok.text == copy && fresh(copy)
        invariant Grew(old(dentries), old(table.contents), dentries, table.contents)
        invariant OnlyFromDisk(old(dentries), dentries, inums, dirs, disk)
        invariant 0 <= k <= |all| && AtToken(copy[..], strtok.current, token, all[k..])
        invariant start in dentries && at in dentries
        invariant Walk(dentries, table.contents, start, start, all[..k]) == Hit(at, parent)
        decreases |all| - k
      {
        Known();
        ghost var s := Snapshot(dentries, table.contents, inums, dirs);
        var found, name;
        found, name, token, at, parent := Round(copy, token, at, parent, start, k, all);
        LoadedTwice(old(dentries), old(table.contents), s, dentries, table.contents, inums, dirs, disk);
        if !found {
          return Miss(at, name);
        }
        k := k + 1;
      }
      NoNames(copy[..], strtok.current, token, all[k..]);
      assert all[..k] == all;
      r := Hit(at, parent);
      Meant(old(dentries), old(table.contents), old(depth), start, all);
    }

    /** One component of the path, and the next token. */
    method Round(copy: array<char>, token: int, at: int, parent: int, ghost start: int, ghost k: nat,
                 ghost all: seq<string>)
      returns (found: bool, name: string, token': int, at': int, parent': int)
      requires Valid() && strtok.Valid() && strtok.text == copy && at in dentries && start in dentries
      requires token >= 0 && k <= |all| && AtToken(copy[..], strtok.current, token, all[k..]) && AllPlain(all)
      requires Walk(dentries, table.contents, start, start, all[..k]) == Hit(at, parent)
      modifies strtok`current, copy, this`dentries, this`dirs, this`inums, this`nextPage, this`depth, table
      ensures Valid() && Grew(old(dentries), old(table.contents), dentries, table.contents)
      ensures strtok.Valid() && strtok.text == copy
      ensures OnlyFromDisk(old(dentries), dentries, inums, dirs, disk)
      ensures SameNodes(old(dentries), old(inums), old(dirs), inums, dirs)
      ensures at' in dentries && start in dentries && k < |all|
      ensures found ==> AtToken(copy[..], strtok.current, token', all[k + 1..])
      ensures found ==> Walk(dentries, table.contents, start, start, all[..k + 1]) == Hit(at', parent')
      ensures !found ==> Walk(dentries, table.contents, start, start, all) == Miss(at', name)
      ensures !found ==> at' in inums && (at' in dirs ==> Entry(inums[at'], name) !in disk)
    {
      hide Valid, Tokens, CString, Cut, AtToken, RestOf, Walk, OnlyFromDisk, Grew, PlainWord, AllPlain, SameNodes;
      ghost var text, current := copy[..], strtok.current;
      TokenIsNext(text, current, token, all[k..]);
      name := ReadString(copy, token);
      PlainAt(all, k);
      found, at', parent' := Advance(name, at, parent, start, all[..k]);
      token' := token;
      if found {
        token' := strtok.Next("/");
        NextNames(text, current, token, all[k..], copy[..], strtok.current, token');
        assert all[..k] + [name] == all[..k + 1] && all[k..][1..] == all[k + 1..];
      } else {
        MissHere(dentries, table.contents, start, all[..k], all[k..], at', parent');
        assert all[..k] + all[k..] == all;
      }
    }

    lemma Known()
      requires Valid()
      ensures root in dentries && inums.Keys == dentries.Keys
      ensures RootedOk(dentries, root, depth)
    {
    }

    /** Where a lookup in the grown cache ended has the names that the path means. */
    lemma Meant(dentries0: map<int, Key>, cache0: map<Key, int>, depth0: map<int, nat>, start: int, path: seq<string>)
      requires Valid() && RootedOk(dentries0, root, depth0) && start in dentries0
      requires Grew(dentries0, cache0, dentries, table.contents)
      requires Walk(dentries, table.contents, start, start, path).Hit?
      ensures RootedOk(dentries, root, depth)
      ensures var d := Walk(dentries, table.contents, start, start, path).d;
              && d in dentries
              && NamesOf(dentries, root, depth, d) == Normalized(NamesOf(dentries0, root, depth0, start), path)
    {
      hide TreeOk, Walk, HashTables.TableOk, HashTables.Unused, Above, DirsOk, DentryHash, Chain, Top;
      WalkNormalizes(dentries, table.contents, root, depth, start, start, path);
      NamesKept(dentries0, dentries, root, start, depth0[start], depth[start]);
    }

    /** One round of the loop of lookup_final_dentry, after the components `did` from `start`. */
    method Advance(name: string, at: int, parent: int, ghost start: int, ghost did: seq<string>)
      returns (found: bool, at': int, parent': int)
      requires Valid() && at in dentries && start in dentries && PlainWord(name)
      requires Walk(dentries, table.contents, start, start, did) == Hit(at, parent)
      modifies this`dentries, this`dirs, this`inums, this`nextPage, this`depth, table
      ensures Valid() && Grew(old(dentries), old(table.contents), dentries, table.contents)
      ensures OnlyFromDisk(old(dentries), dentries, inums, dirs, disk)
      ensures SameNodes(old(dentries), old(inums), old(dirs), inums, dirs)
      ensures at' in dentries && start in dentries
      ensures found ==> Walk(dentries, table.contents, start, start, did + [name]) == Hit(at', parent')
      ensures !found ==> at' == at && Walk(dentries, table.contents, start, start, did) == Hit(at', parent')
      ensures !found ==> name != "." && name != ".." && Key(at, name) !in table.contents
      ensures !found ==> at in inums && (at in dirs ==> Entry(inums[at], name) !in disk)
    {
      hide TreeOk, RootedOk, HashTables.TableOk, HashTables.Unused, Above, DirsOk, DentryHash;
      hide Walk, OnlyFromDisk, NameOk, PlainWord;
      NothingLoaded(dentries, table.contents, inums, dirs, disk);
      found, at', parent' := true, at, parent;
      if name == "." {
        WalkStep(dentries, table.contents, start, did, name, at, parent);
      } else if name == ".." {
        var up := ParentOf(dentries, at);
        if up != NIL {
          at', parent' := up, ParentOf(dentries, up);
        }
        ParentsCached(dentries, table.contents, dirs, root, cwd, at);
        WalkStep(dentries, table.contents, start, did, name, at, parent);
      } else {
        ghost var s, dirs0 := Snapshot(dentries, table.contents, inums, dirs), dirs;
        PlainIsOk(name);
        var hit := Component(at, name);
        WalkGrows(s.dentries, s.cache, dentries, table.contents, dirs0, root, cwd, start, start, did);
        if hit.None? {
          found := false;
        } else {
          WalkStep(dentries, table.contents, start, did, name, at, parent);
          at', parent' := hit.value, at;
        }
      }
    }

    /** do_ccwd */
    method Ccwd(path: string) returns (ok: bool)
      requires Valid() && |path| < MAX_PATH && NUL !in path
      modifies this, strtok, table
      ensures Valid() && Grew(old(dentries), old(table.contents), dentries, table.contents)
      ensures var start := if path != "" && path[0] == '/' then root else old(cwd);
              var found := Walk(dentries, table.contents, start, start, Tokens(path, "/"));
              ok == (found.Hit? && found.d in dirs) && cwd == if ok then found.d else old(cwd)
      ensures ok ==> NamesOf(dentries, root, depth, cwd) == old(Meaning(path))
      ensures path == ".." ==> ok && cwd == if old(cwd) == root then root else old(dentries)[old(cwd)].parent
    {
      hide NamesOf, Normalized, TreeOk, RootedOk, HashTables.TableOk, HashTables.Unused, Above, Tokens, Walk, Grew;
      hide OnlyFromDisk;
      var found := Lookup(path, cwd);
      if path == ".." {
        UpToken();
        UpOne(dentries, table.contents, dirs, root, cwd);
        StillThere(old(dentries), old(table.contents), dentries, table.contents, cwd);
      }
      if found.Miss? || found.d !in dirs {
        return false;
      }
      cwd := found.d;
      ok := true;
    }

    /** Changing the directory and reading it gives the path that was asked for, without its dots. */
    method CcwdThenRcwd(path: string) returns (ok: bool, out: string)
      requires Valid() && |path| < MAX_PATH && NUL !in path && |Meaning(path)| <= MAX_PATH
      modifies this, strtok, table
      ensures Valid()
      ensures ok ==> var names := old(Meaning(path)); out == if names == [] then "/" else Joined(names)
    {
      hide TreeOk, HashTables.TableOk, HashTables.Unused, Above, Tokens, Walk, Grew, OnlyFromDisk, Normalized, Joined;
      out := "";
      ok := Ccwd(path);
      if ok {
        assert |NamesOf(dentries, root, depth, cwd)| == depth[cwd];
        var done;
        done, out := Rcwd();
        if cwd == root {
          AtTheRoot(dentries, table.contents, root, depth);
        } else {
          OneUp(dentries, table.contents, root, depth, cwd);
        }
      }
    }

    /** Reading the current directory and looking the result up leads back to the current directory. */
    method RcwdThenLookup() returns (path: string, r: Found)
      requires Valid() && cwd in depth && depth[cwd] <= MAX_PATH
      modifies strtok, this`dentries, this`dirs, this`inums, this`nextPage, this`depth, table
      ensures Valid() && (|path| < MAX_PATH ==> r.Hit? && r.d == cwd)
    {
      hide TreeOk, RootedOk, HashTables.TableOk, HashTables.Unused, Above, Tokens, Walk, Grew, OnlyFromDisk, PathTo,
          Chain, Top;
      var ok;
      ok, path := Rcwd();
      r := Miss(root, path);
      RoundTrip(cwd);
      PathStarts(dentries, table.contents, root, cwd, depth[cwd]);
      if |path| < MAX_PATH {
        ghost var dentries0, cache0 := dentries, table.contents;
        ghost var dirs0 := dirs;
        r := Lookup(path, cwd);
        RootCached(dentries0, cache0, root);
        WalkGrows(dentries0, cache0, dentries, table.contents, dirs0, root, cwd, root, root, Tokens(path, "/"));
      }
    }
  }

  lemma StillThere(dentries: map<int, Key>, cache: map<Key, int>, dentries': map<int, Key>, cache': map<Key, int>,
                   d: int)
    requires Grew(dentries, cache, dentries', cache') && d in dentries
    ensures d in dentries' && dentries'[d] == dentries[d]
  {
  }

  lemma RootCached(dentries: map<int, Key>, cache: map<Key, int>, root: int)
    requires TreeOk(dentries, cache, root)
    ensures root in dentries
  {
  }

  lemma WalkNowhere(dentries: map<int, Key>, cache: map<Key, int>, at: int, parent: int)
    ensures Walk(dentries, cache, at, parent, []) == Hit(at, parent)
  {
  }

  lemma NothingLoaded(dentries: map<int, Key>, cache: map<Key, int>, inums: map<int, int>, dirs: set<int>,
                      disk: map<Entry, Node>)
    ensures Grew(dentries, cache, dentries, cache) && OnlyFromDisk(dentries, dentries, inums, dirs, disk)
  {
  }

  /** The parent of a cached dentry is cached, or NULL. */
  lemma ParentsCached(dentries: map<int, Key>, cache: map<Key, int>, dirs: set<int>, root: int, cwd: int, d: int)
    requires TreeOk(dentries, cache, root) && DirsOk(dentries, dirs, root, cwd) && d in dentries
    ensures ParentOf(dentries, d) == NIL || ParentOf(dentries, d) in dentries
  {
  }

  /** The components of a path have no slash and are not empty. */
  lemma {:induction false} TokensPlain(path: string)
    requires NUL !in path
    ensures AllPlain(Tokens(path, "/"))
    decreases |path|
  {
    hide AllPlain, PlainWord;
    var n := Skip(path, "/");
    var rest := path[n..];
    if rest == "" {
      PlainFirst([]);
    } else {
      var w := Word(rest, "/");
      TokensPlain(rest[w..]);
      WordPlain(rest, w);
      PlainMore(rest[..w], Tokens(rest[w..], "/"));
    }
  }

  predicate AllPlain(words: seq<string>) {
    forall i :: 0 <= i < |words| ==> PlainWord(words[i])
  }

  lemma PlainFirst(words: seq<string>)
    requires words == []
    ensures AllPlain(words)
  {
  }

  lemma PlainMore(word: string, words: seq<string>)
    requires PlainWord(word) && AllPlain(words)
    ensures AllPlain([word] + words)
  {
  }

  lemma PlainAt(words: seq<string>, i: nat)
    requires AllPlain(words) && i < |words|
    ensures PlainWord(words[i])
  {
  }

  lemma WordPlain(rest: string, w: nat)
    requires NUL !in rest && rest != "" && rest[0] != '/' && w == Word(rest, "/")
    ensures PlainWord(rest[..w])
  {
    assert w > 0;
    forall i | 0 <= i < w
      ensures rest[i] != '/'
    {
      assert rest[i] !in "/";
    }
  }

  predicate PlainWord(word: string) {
    word != "" && '/' !in word && NUL !in word
  }

  lemma PlainIsOk(name: string)
    requires PlainWord(name) && name != "." && name != ".."
    ensures NameOk(name)
  {
  }

  /** Where a walk goes after its first part. */
  lemma {:induction false} WalkAppend(dentries: map<int, Key>, cache: map<Key, int>, at: int, parent: int,
                                      a: seq<string>, b: seq<string>)
    requires Walk(dentries, cache, at, parent, a).Hit?
    ensures var h := Walk(dentries, cache, at, parent, a);
            Walk(dentries, cache, at, parent, a + b) == Walk(dentries, cache, h.d, h.parent, b)
    decreases |a|
  {
    if a == [] {
      assert a + b == b;
    } else {
      assert (a + b)[0] == a[0] && (a + b)[1..] == a[1..] + b;
      if a[0] == "." {
        WalkAppend(dentries, cache, at, parent, a[1..], b);
      } else if a[0] == ".." {
        var up := ParentOf(dentries, at);
        if up != NIL {
          WalkAppend(dentries, cache, up, ParentOf(dentries, up), a[1..], b);
        } else {
          WalkAppend(dentries, cache, at, parent, a[1..], b);
        }
      } else {
        WalkAppend(dentries, cache, cache[Key(at, a[0])], at, a[1..], b);
      }
    }
  }

  /** One component more. */
  lemma WalkStep(dentries: map<int, Key>, cache: map<Key, int>, start: int, did: seq<string>, name: string, at: int,
                 parent: int)
    requires Walk(dentries, cache, start, start, did) == Hit(at, parent)
    requires name == "." || name == ".." || Key(at, name) in cache
    ensures Walk(dentries, cache, start, start, did + [name]) ==
              if name == "." then Hit(at, parent)
              else if name == ".." then
                var up := ParentOf(dentries, at);
                if up != NIL then Hit(up, ParentOf(dentries, up)) else Hit(at, parent)
              else Hit(cache[Key(at, name)], at)
  {
    WalkAppend(dentries, cache, start, start, did, [name]);
    assert [name][1..] == [];
  }

  lemma MissHere(dentries: map<int, Key>, cache: map<Key, int>, start: int, did: seq<string>, names: seq<string>,
                 at: int, parent: int)
    requires Walk(dentries, cache, start, start, did) == Hit(at, parent) && names != []
    requires names[0] != "." && names[0] != ".." && Key(at, names[0]) !in cache
    ensures Walk(dentries, cache, start, start, did + names) == Miss(at, names[0])
  {
    WalkAppend(dentries, cache, start, start, did, names);
  }

  /** A walk that succeeds goes the same way in a larger cache. */
  lemma {:induction false} WalkGrows(dentries: map<int, Key>, cache: map<Key, int>, dentries': map<int, Key>,
                                     cache': map<Key, int>,
                                     dirs: set<int>, root: int, cwd: int, at: int, parent: int, names: seq<string>)
    requires TreeOk(dentries, cache, root) && DirsOk(dentries, dirs, root, cwd)
        && Grew(dentries, cache, dentries', cache')
    requires at in dentries && Walk(dentries, cache, at, parent, names).Hit?
    ensures Walk(dentries', cache', at, parent, names) == Walk(dentries, cache, at, parent, names)
    decreases |names|
  {
    if names != [] {
      if names[0] == "." {
        WalkGrows(dentries, cache, dentries', cache', dirs, root, cwd, at, parent, names[1..]);
      } else if names[0] == ".." {
        var up := ParentOf(dentries, at);
        if up != NIL {
          WalkGrows(dentries, cache, dentries', cache', dirs, root, cwd, up, ParentOf(dentries, up), names[1..]);
        } else {
          WalkGrows(dentries, cache, dentries', cache', dirs, root, cwd, at, parent, names[1..]);
        }
      } else {
        WalkGrows(dentries, cache, dentries', cache', dirs, root, cwd, cache[Key(at, names[0])], at, names[1..]);
      }
    }
  }

  datatype Snapshot = Snapshot(dentries: map<int, Key>, cache: map<Key, int>, inums: map<int, int>, dirs: set<int>)

  /** Cached dentries keep their inodes and kinds. */
  ghost predicate SameNodes(dentries: map<int, Key>, inums: map<int, int>, dirs: set<int>, inums': map<int, int>,
                            dirs': set<int>) {
    forall d :: d in dentries ==> d in inums && d in inums' && inums'[d] == inums[d] && (d in dirs' <==> d in dirs)
  }

  lemma SameAsBefore(s: Snapshot)
    requires s.inums.Keys == s.dentries.Keys
    ensures SameNodes(s.dentries, s.inums, s.dirs, s.inums, s.dirs)
  {
  }

  lemma CachedIsDentry(dentries: map<int, Key>, cache: map<Key, int>, root: int, key: Key)
    requires TreeOk(dentries, cache, root) && key in cache
    ensures cache[key] in dentries
  {
  }

  lemma LoadedOne(s: Snapshot, key: Key, d: int, disk: map<Entry, Node>)
    requires s.inums.Keys == s.dentries.Keys && d !in s.dentries && d !in s.dirs && key !in s.cache
        && key.parent in s.dentries
    requires Entry(s.inums[key.parent], key.name) in disk
    ensures var node := disk[Entry(s.inums[key.parent], key.name)];
            var inums, dirs := s.inums[d := node.inum], if node.isDir then s.dirs + {d} else s.dirs;
            && Grew(s.dentries, s.cache, s.dentries[d := key], s.cache[key := d])
            && OnlyFromDisk(s.dentries, s.dentries[d := key], inums, dirs, disk)
            && SameNodes(s.dentries, s.inums, s.dirs, inums, dirs)
  {
  }

  lemma LoadedTwice(dentries: map<int, Key>, cache: map<Key, int>, s: Snapshot, dentries': map<int, Key>,
                    cache': map<Key, int>,
                    inums: map<int, int>, dirs: set<int>, disk: map<Entry, Node>)
    requires Grew(dentries, cache, s.dentries, s.cache) && Grew(s.dentries, s.cache, dentries', cache')
    requires OnlyFromDisk(dentries, s.dentries, s.inums, s.dirs, disk)
        && OnlyFromDisk(s.dentries, dentries', inums, dirs, disk)
    requires s.inums.Keys == s.dentries.Keys && SameNodes(s.dentries, s.inums, s.dirs, inums, dirs)
    ensures Grew(dentries, cache, dentries', cache') && OnlyFromDisk(dentries, dentries', inums, dirs, disk)
  {
    forall d | d in dentries' && d !in dentries
      ensures FromDisk(dentries'[d], d, inums, dirs, disk)
    {
      if d in s.dentries {
        assert FromDisk(s.dentries[d], d, s.inums, s.dirs, disk);
        assert s.dentries[d].parent in s.dentries;
      }
    }
  }

  /** The path that do_rcwd writes is absolute and has no NUL. */
  lemma PathStarts(dentries: map<int, Key>, cache: map<Key, int>, root: int, d: int, n: nat)
    requires TreeOk(dentries, cache, root) && Chain(dentries, root, d, n) && Top(dentries, root, d, n) == root
    ensures var path := PathTo(dentries, root, d, n); path != "" && path[0] == '/' && NUL !in path
  {
    WalkDown(dentries, cache, root, d, n);
    JoinedClean(Names(dentries, root, d, n));
  }

  lemma {:induction false} JoinedClean(names: seq<string>)
    requires forall i :: 0 <= i < |names| ==> NUL !in names[i]
    ensures NUL !in Joined(names) && (names != [] ==> Joined(names)[0] == '/')
  {
    if names != [] {
      JoinedClean(names[1..]);
    }
  }

  /** The cache has what it had, and maybe more. */
  ghost predicate Grew(dentries: map<int, Key>, cache: map<Key, int>, dentries': map<int, Key>, cache': map<Key, int>) {
    && (forall d :: d in dentries ==> d in dentries' && dentries'[d] == dentries[d])
    && (forall k :: k in cache ==> k in cache' && cache'[k] == cache[k])
  }

  /** New dentries stand for entries of directories on disk. */
  ghost predicate OnlyFromDisk(dentries: map<int, Key>, dentries': map<int, Key>, inums: map<int, int>, dirs: set<int>,
                               disk: map<Entry, Node>)
  {
    forall d :: d in dentries' && d !in dentries ==> FromDisk(dentries'[d], d, inums, dirs, disk)
  }

  ghost predicate FromDisk(key: Key, d: int, inums: map<int, int>, dirs: set<int>, disk: map<Entry, Node>) {
    && d in inums && key.parent in inums && Entry(inums[key.parent], key.name) in disk
    && disk[Entry(inums[key.parent], key.name)] == Node(inums[d], d in dirs)
  }

  /** The word at `token` and the words still to be cut are `names`. */
  ghost predicate AtToken(text: string, current: int, token: int, names: seq<string>) {
    if token < 0 then names == []
    else token < |text| && names == [CString(text[token..])] + Tokens(RestOf(text, current), "/")
  }

  lemma FirstNames(text: string, current: int, token: int, path: string)
    requires Cut(text, current, token, "/", path)
    ensures AtToken(text, current, token, Tokens(path, "/"))
  {
  }

  lemma TokenIsNext(text: string, current: int, token: int, names: seq<string>)
    requires AtToken(text, current, token, names) && token >= 0
    ensures token < |text| && names != [] && names[0] == CString(text[token..])
  {
  }

  lemma NoNames(text: string, current: int, token: int, names: seq<string>)
    requires AtToken(text, current, token, names) && token < 0
    ensures names == []
  {
  }

  lemma NextNames(text: string, current: int, token: int, names: seq<string>, text': string, current': int, token': int)
    requires AtToken(text, current, token, names) && token >= 0
        && Cut(text', current', token', "/", RestOf(text, current))
    ensures names != [] && AtToken(text', current', token', names[1..])
  {
    assert names[1..] == Tokens(RestOf(text, current), "/");
  }

  /** strcat of the names, the highest first. */
  method JoinNames(temp: seq<string>) returns (path: string)
    ensures path == Joined(Reversed(temp))
  {
    path := "";
    var i := |temp|;
    ghost var names := Reversed(temp);
    while i > 0
      invariant 0 <= i <= |temp| && path == Joined(names[..|temp| - i])
    {
      i := i - 1;
      JoinedAppend(names, |temp| - i - 1);
      ReversedAt(temp, i);
      path := path + "/";
      path := path + temp[i];
    }
    assert names[..|temp|] == names;
  }

  /** strcpy into a path buffer of the kernel stack. */
  method CopyPath(path: string) returns (copy: array<char>)
    requires |path| < MAX_PATH && NUL !in path
    ensures fresh(copy) && copy.Length == MAX_PATH && NUL in copy[..] && CString(copy[..]) == path
  {
    copy := new char[MAX_PATH](_ => NUL);
    var i := 0;
    while i < |path|
      invariant 0 <= i <= |path| && copy[..i] == path[..i] && copy[MAX_PATH - 1] == NUL
    {
      copy[i] := path[i];
      i := i + 1;
    }
    copy[i] := NUL;
    assert copy[..][MAX_PATH - 1] == NUL || i == MAX_PATH - 1;
    assert copy[..][i] == NUL;
    CStringIs(copy[..], path);
  }

  /** The C string at a position. */
  method ReadString(a: array<char>, start: nat) returns (s: string)
    requires start < a.Length
    ensures s == CString(a[..][start..])
  {
    var i := start;
    while i < a.Length && a[i] != NUL
      invariant start <= i <= a.Length && NUL !in a[start..i]
    {
      i := i + 1;
    }
    s := a[start..i];
    CStringIs(a[..][start..], s);
  }

  /** On the way up from `d`: `temp` has the names passed, `left` steps remain from `iter`. */
  ghost predicate Climbed(dentries: map<int, Key>, root: int, d: int, n: nat, iter: int, left: nat, temp: seq<string>)
    requires Chain(dentries, root, d, n)
  {
    && Chain(dentries, root, iter, left) && Top(dentries, root, iter, left) == Top(dentries, root, d, n)
    && Names(dentries, root, d, n) == Names(dentries, root, iter, left) + Reversed(temp)
  }

  lemma ClimbStarts(dentries: map<int, Key>, root: int, d: int, n: nat)
    requires Chain(dentries, root, d, n)
    ensures Climbed(dentries, root, d, n, d, n, [])
  {
  }

  lemma ClimbOne(dentries: map<int, Key>, root: int, d: int, n: nat, iter: int, left: nat, temp: seq<string>)
    requires Chain(dentries, root, d, n) && Climbed(dentries, root, d, n, iter, left, temp) && iter != root
        && iter != NIL
    ensures left > 0 && iter in dentries
    ensures Climbed(dentries, root, d, n, dentries[iter].parent, left - 1, temp + [dentries[iter].name])
  {
    ReversedAppend(temp, dentries[iter].name);
  }

  lemma ClimbEnds(dentries: map<int, Key>, root: int, d: int, n: nat, iter: int, left: nat, temp: seq<string>)
    requires Chain(dentries, root, d, n) && Climbed(dentries, root, d, n, iter, left, temp)
        && (iter == root || iter == NIL)
    ensures Top(dentries, root, d, n) == iter && Reversed(temp) == Names(dentries, root, d, n)
  {
  }

  function Reversed(s: seq<string>): (r: seq<string>)
    ensures |r| == |s|
  {
    if s == [] then [] else [s[|s| - 1]] + Reversed(s[..|s| - 1])
  }

  lemma ReversedAppend(s: seq<string>, x: string)
    ensures Reversed(s + [x]) == [x] + Reversed(s)
  {
    assert (s + [x])[..|s|] == s;
  }

  lemma {:induction false} ReversedAt(s: seq<string>, i: nat)
    requires i < |s|
    ensures Reversed(s)[|s| - 1 - i] == s[i]
  {
    if i < |s| - 1 {
      ReversedAt(s[..|s| - 1], i);
    }
  }

  lemma {:induction false} JoinedAppend(names: seq<string>, k: nat)
    requires k < |names|
    ensures Joined(names[..k + 1]) == Joined(names[..k]) + "/" + names[k]
    decreases |names|
  {
    if k == 0 {
      assert names[..1] == [names[0]] && names[..0] == [];
    } else {
      JoinedAppend(names[1..], k - 1);
      assert names[..k + 1][1..] == names[1..][..k] && names[..k][1..] == names[1..][..k - 1];
    }
  }
}
