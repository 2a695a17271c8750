/** What the bytes of an RFS directory say: the names in it and the inodes they stand for. */
module RfsNames {
  import opened RfsFile
  import opened RfsVolume
  import D = RfsDir

  // ---------------------------------------------------------------- names as bytes

  function Str(w: seq<Byte>): (name: string)
    ensures |name| == |w|
  {
    seq(|w|, i requires 0 <= i < |w| => w[i] as int as char)
  }

  function Coded(name: string): (w: seq<Byte>)
    requires IsBytes(name)
    ensures |w| == |name|
  {
    seq(|name|, i requires 0 <= i < |name| => name[i] as int as Byte)
  }

  lemma CodedReads(name: string)
    requires IsBytes(name)
    ensures Str(Coded(name)) == name && 0 !in Coded(name)
  {
  }

  lemma StrInjective(a: seq<Byte>, b: seq<Byte>)
    requires Str(a) == Str(b)
    ensures a == b
  {
    forall i | 0 <= i < |a|
      ensures a[i] == b[i]
    {
      assert Str(a)[i] == Str(b)[i];
    }
  }

  // ---------------------------------------------------------------- listings

  function NameAt(s: seq<Byte>, i: nat): string
    requires (i + 1) * ENTRY <= |s|
  {
    Str(D.NameOf(D.EntryAt(s, i)))
  }

  function InumAt(s: seq<Byte>, i: nat): nat
    requires (i + 1) * ENTRY <= |s|
  {
    D.InumOf(D.EntryAt(s, i))
  }

  /** The bytes `s` of directory `n` list its part of `entries`: every entry is one of them, with its
      inode number, every one of them has an entry, and no name stands there twice. */
  ghost predicate Lists(s: seq<Byte>, n: int, entries: map<Key, int>) {
    && |s| % ENTRY == 0 && D.NamesEnd(s)
    && (forall i, j :: 0 <= i < j < |s| / ENTRY ==> NameAt(s, i) != NameAt(s, j))
    && (forall i :: 0 <= i < |s| / ENTRY ==>
          Key(n, NameAt(s, i)) in entries && entries[Key(n, NameAt(s, i))] == InumAt(s, i))
    && (forall k :: k in entries && k.dir == n ==> exists i :: 0 <= i < |s| / ENTRY && NameAt(s, i) == k.name)
  }

  lemma ListsEnd(s: seq<Byte>, n: int, entries: map<Key, int>)
    requires Lists(s, n, entries)
    ensures D.NamesEnd(s)
  {
  }

  /** The names that a directory lists are C strings. */
  lemma ListedIsBytes(s: seq<Byte>, n: int, entries: map<Key, int>, k: Key)
    requires Lists(s, n, entries) && k in entries && k.dir == n
    ensures IsBytes(k.name)
  {
    hide D.EntryAt, D.InumOf;
    var i :| 0 <= i < |s| / ENTRY && NameAt(s, i) == k.name;
    var w := D.NameOf(D.EntryAt(s, i));
    assert forall j :: 0 <= j < |w| ==> w[j] in w;
  }

  lemma ListsNothing(n: int, entries: map<Key, int>)
    requires forall k :: k in entries ==> k.dir != n
    ensures Lists([], n, entries)
  {
  }

  /** Two sets of entries agree on directory `n`. */
  ghost predicate SameIn(n: int, entries: map<Key, int>, entries': map<Key, int>) {
    && (forall k :: k in entries && k.dir == n ==> k in entries' && entries'[k] == entries[k])
    && (forall k :: k in entries' && k.dir == n ==> k in entries)
  }

  lemma ListsOther(s: seq<Byte>, n: int, entries: map<Key, int>, entries': map<Key, int>)
    requires Lists(s, n, entries)
    requires SameIn(n, entries, entries')
    ensures Lists(s, n, entries')
  {
    hide NameAt, InumAt;
  }

  /** The entries of a longer directory. */
  lemma AppendedAt(s: seq<Byte>, e: seq<Byte>, i: nat)
    requires |s| % ENTRY == 0 && |e| == ENTRY && i <= |s| / ENTRY
    ensures D.EntryAt(s + e, i) == if i < |s| / ENTRY then D.EntryAt(s, i) else e
  {
  }

  /** An entry for a new name behind the others. */
  lemma ListsAppend(s: seq<Byte>, was: seq<Byte>, n: int, name: string, m: nat, entries: map<Key, int>)
    requires Lists(s, n, entries) && NameFits(name) && Key(n, name) !in entries
    requires |was| == ENTRY && m < 0x1_0000_0000
    ensures Lists(s + D.Entry(was, m, Coded(name)), n, entries[Key(n, name) := m])
  {
    hide D.EntryAt, D.NameOf, D.InumOf, D.Entry, Coded, Str;
    var e, count := D.Entry(was, m, Coded(name)), |s| / ENTRY;
    var t, entries' := s + e, entries[Key(n, name) := m];
    CodedReads(name);
    D.EntryReads(was, m, Coded(name));
    EntryEnds(was, m, Coded(name));
    assert |t| / ENTRY == count + 1;
    forall i | 0 <= i < count + 1
      ensures D.EntryAt(t, i) == if i < count then D.EntryAt(s, i) else e
    {
      AppendedAt(s, e, i);
    }
    assert NameAt(t, count) == name && InumAt(t, count) == m;
    forall i | 0 <= i < count
      ensures NameAt(t, i) == NameAt(s, i) != name && InumAt(t, i) == InumAt(s, i)
    {
      assert Key(n, NameAt(s, i)) in entries;
    }
    forall k | k in entries' && k.dir == n
      ensures exists i :: 0 <= i < count + 1 && NameAt(t, i) == k.name
    {
      if k == Key(n, name) {
        assert NameAt(t, count) == k.name;
      } else {
        var i :| 0 <= i < count && NameAt(s, i) == k.name;
        assert NameAt(t, i) == k.name;
      }
    }
  }

  lemma EntryEnds(was: seq<Byte>, m: nat, w: seq<Byte>)
    requires |was| == ENTRY && m < 0x1_0000_0000 && |w| < ENTRY - 4
    ensures 0 in D.Entry(was, m, w)[4..]
  {
    var e := D.Entry(was, m, w);
    assert e[4..][|w|] == 0;
  }

  /** One entry less. */
  lemma ListsCut(s: seq<Byte>, d: nat, n: int, entries: map<Key, int>)
    requires Lists(s, n, entries) && d < |s| / ENTRY
    ensures Lists(D.Cut(s, d * ENTRY), n, entries - {Key(n, NameAt(s, d))})
  {
    hide D.EntryAt, D.NameOf, D.InumOf, D.Cut, Str;
    var t, entries', count := D.Cut(s, d * ENTRY), entries - {Key(n, NameAt(s, d))}, |s| / ENTRY;
    assert |t| / ENTRY == count - 1;
    forall i | 0 <= i < count - 1
      ensures D.EntryAt(t, i) == D.EntryAt(s, if i < d then i else i + 1)
    {
      D.CutEntries(s, d, i);
    }
    forall i | 0 <= i < count - 1
      ensures NameAt(t, i) == NameAt(s, if i < d then i else i + 1) != NameAt(s, d)
      ensures InumAt(t, i) == InumAt(s, if i < d then i else i + 1)
    {
      assert i < d ==> NameAt(s, i) != NameAt(s, d);
      assert i >= d ==> NameAt(s, d) != NameAt(s, i + 1);
    }
    forall k | k in entries' && k.dir == n
      ensures exists i :: 0 <= i < count - 1 && NameAt(t, i) == k.name
    {
      var i :| 0 <= i < count && NameAt(s, i) == k.name;
      assert i != d;
      assert NameAt(t, if i < d then i else i - 1) == k.name;
    }
  }

  /** The search finds a name exactly if the directory has it, and with it the inode number. */
  lemma FindDecides(s: seq<Byte>, n: int, entries: map<Key, int>, name: string, d: nat)
    requires Lists(s, n, entries) && IsBytes(name) && d <= |s| / ENTRY
    requires forall i :: 0 <= i < d ==> D.NameOf(D.EntryAt(s, i)) != Coded(name)
    requires d < |s| / ENTRY ==> D.NameOf(D.EntryAt(s, d)) == Coded(name)
    ensures d < |s| / ENTRY <==> Key(n, name) in entries
    ensures d < |s| / ENTRY ==> NameAt(s, d) == name && entries[Key(n, name)] == InumAt(s, d)
  {
    hide D.EntryAt, D.NameOf, D.InumOf, Coded, Str;
    CodedReads(name);
    if d < |s| / ENTRY {
      assert NameAt(s, d) == name && Key(n, NameAt(s, d)) in entries;
    } else if Key(n, name) in entries {
      var i :| 0 <= i < |s| / ENTRY && NameAt(s, i) == Key(n, name).name;
      StrInjective(D.NameOf(D.EntryAt(s, i)), Coded(name));
      assert false;
    }
  }
}
