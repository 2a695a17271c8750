/** The chained hash table of util/hash_table.c: bucket heads and nodes linked by `next`. */
module HashTables {
  import opened Basics
  import opened Chains

  /** HASH_TABLE_SIZE */
  const SIZE: nat := 128

  const NIL := -1

  /** A table seen from outside its memory: the chain of nodes of each bucket, and the finite map that
      the nodes hold. The bucket heads are the nodes 0 to SIZE - 1. */
  datatype Table<!K, V> = Table(
    next: Links, keys: map<int, K>, values: map<int, V>, chains: seq<seq<int>>, contents: map<K, V>)

  /** The links of bucket `i`, its head included. */
  ghost predicate ChainOk(next: Links, i: nat, chain: seq<int>) {
    Linked(next, NIL, i, [i] + chain) && NoDuplicates([i] + chain)
  }

  /** Node `x` of bucket `i` holds an entry of the map. */
  ghost predicate NodeOk<K, V>(t: Table<K, V>, hash: K -> int, i: nat, x: int) {
    && x >= SIZE && x in t.keys && x in t.values && hash(t.keys[x]) == i
    && t.keys[x] in t.contents && t.contents[t.keys[x]] == t.values[x]
  }

  /** Some node of bucket `i` has key `k`. */
  ghost predicate HasKey<K, V>(t: Table<K, V>, i: nat, k: K) {
    i < |t.chains| && exists x :: x in t.chains[i] && x in t.keys && t.keys[x] == k
  }

  ghost predicate TableOk<K(!new), V>(t: Table<K, V>, hash: K -> int) {
    && |t.chains| == SIZE
    && (forall i :: 0 <= i < SIZE ==> ChainOk(t.next, i, t.chains[i]))
    && (forall i, x :: 0 <= i < SIZE && x in t.chains[i] ==> NodeOk(t, hash, i, x))
    && (forall i, x, y :: 0 <= i < SIZE && x in t.chains[i] && y in t.chains[i] && t.keys[x] == t.keys[y] ==> x == y)
    && (forall k :: k in t.contents ==> 0 <= hash(k) && HasKey(t, hash(k), k))
  }

  /** The cursor at position `j` of a bucket: the node there, the link behind it. */
  lemma Cursor<K(!new), V>(t: Table<K, V>, hash: K -> int, h: nat, j: nat)
    requires TableOk(t, hash) && h < SIZE && j <= |t.chains[h]|
    ensures var list := [h] + t.chains[h]; var at := list[j];
            && at in t.next && t.next[at] == At(t.chains[h], j, NIL) && (t.next[at] == NIL <==> j == |t.chains[h]|)
    ensures j < |t.chains[h]| ==> NodeOk(t, hash, h, t.chains[h][j])
  {
    hide Linked, NoDuplicates;
    assert ChainOk(t.next, h, t.chains[h]);
    var list := [h] + t.chains[h];
    LinkedCursor(t.next, NIL, h, list, j);
    if j < |t.chains[h]| {
      assert t.chains[h][j] in t.chains[h];
    }
  }

  /** Where the walk of a bucket ends. */
  lemma WalkEnds<K(!new), V>(t: Table<K, V>, hash: K -> int, k: K, j: nat)
    requires TableOk(t, hash) && 0 <= hash(k) < SIZE && j <= |t.chains[hash(k)]|
    requires forall m :: 0 <= m < j ==> t.chains[hash(k)][m] in t.keys && t.keys[t.chains[hash(k)][m]] != k
    requires var c := t.chains[hash(k)]; j < |c| ==> c[j] in t.keys && t.keys[c[j]] == k
    ensures j < |t.chains[hash(k)]| <==> k in t.contents
    ensures var c := t.chains[hash(k)]; j < |c| ==> c[j] in t.values && t.contents[k] == t.values[c[j]]
  {
    hide ChainOk;
    var c := t.chains[hash(k)];
    if j < |c| {
      assert c[j] in c && NodeOk(t, hash, hash(k), c[j]);
    }
  }

  // ---- put ----

  function Added<K, V>(t: Table<K, V>, h: nat, k: K, v: V, node: int): Table<K, V>
    requires h < |t.chains| && h in t.next
  {
    Table(t.next[node := t.next[h]][h := node], t.keys[node := k], t.values[node := v],
      t.chains[h := [node] + t.chains[h]], t.contents[k := v])
  }

  ghost predicate Unused<K, V>(t: Table<K, V>, node: int) {
    forall i :: 0 <= i < |t.chains| ==> node !in t.chains[i]
  }

  lemma AddedOk<K(!new), V>(t: Table<K, V>, hash: K -> int, k: K, v: V, node: int)
    requires TableOk(t, hash) && 0 <= hash(k) < SIZE && k !in t.contents && node >= SIZE && Unused(t, node)
    ensures hash(k) in t.next && TableOk(Added(t, hash(k), k, v, node), hash)
  {
    hide ChainOk, NodeOk, HasKey;
    var h := hash(k);
    Cursor(t, hash, h, 0);
    var u := Added(t, h, k, v, node);
    forall i | 0 <= i < SIZE
      ensures ChainOk(u.next, i, u.chains[i])
    {
      AddedChain(t, hash, h, k, v, node, i);
    }
    forall i, x | 0 <= i < SIZE && x in u.chains[i]
      ensures x in u.keys && NodeOk(u, hash, i, x)
    {
      AddedNode(t, hash, k, v, node, i, x);
    }
    forall i, x, y | 0 <= i < SIZE && x in u.chains[i] && y in u.chains[i] && u.keys[x] == u.keys[y]
      ensures x == y
    {
      AddedNode(t, hash, k, v, node, i, x);
      AddedNode(t, hash, k, v, node, i, y);
    }
    forall c | c in u.contents
      ensures 0 <= hash(c) && HasKey(u, hash(c), c)
    {
      AddedKey(t, hash, k, v, node, c);
    }
  }

  lemma AddedNode<K(!new), V>(t: Table<K, V>, hash: K -> int, k: K, v: V, node: int, i: nat, x: int)
    requires TableOk(t, hash) && 0 <= hash(k) < SIZE && k !in t.contents && hash(k) in t.next && node >= SIZE
        && Unused(t, node)
    requires i < SIZE && x in Added(t, hash(k), k, v, node).chains[i]
    ensures var u := Added(t, hash(k), k, v, node);
            && x in u.keys && NodeOk(u, hash, i, x)
            && if x == node then u.keys[x] == k
               else x in t.chains[i] && x in t.keys && u.keys[x] == t.keys[x] && u.keys[x] != k
  {
    hide ChainOk, HasKey;
    if x != node {
      assert x in t.chains[i] && NodeOk(t, hash, i, x);
    }
  }

  lemma AddedKey<K(!new), V>(t: Table<K, V>, hash: K -> int, k: K, v: V, node: int, c: K)
    requires TableOk(t, hash) && 0 <= hash(k) < SIZE && hash(k) in t.next && Unused(t, node)
    requires c in t.contents || c == k
    ensures 0 <= hash(c) && HasKey(Added(t, hash(k), k, v, node), hash(c), c)
  {
    hide ChainOk;
    var u := Added(t, hash(k), k, v, node);
    if c == k {
      assert node in u.chains[hash(k)] && u.keys[node] == k;
    } else {
      assert HasKey(t, hash(c), c);
      var x :| x in t.chains[hash(c)] && x in t.keys && t.keys[x] == c;
      assert x in u.chains[hash(c)] && u.keys[x] == c;
    }
  }

  lemma AddedChain<K(!new), V>(t: Table<K, V>, hash: K -> int, h: nat, k: K, v: V, node: int, i: nat)
    requires TableOk(t, hash) && h < SIZE && h in t.next && node >= SIZE && Unused(t, node) && i < SIZE
    ensures var u := Added(t, h, k, v, node); ChainOk(u.next, i, u.chains[i])
  {
    hide Linked, NoDuplicates, NodeOk, HasKey;
    var u := Added(t, h, k, v, node);
    assert ChainOk(t.next, i, t.chains[i]);
    if i == h {
      Cursor(t, hash, h, 0);
      var list := [i] + t.chains[i];
      assert node !in list;
      LinkedInsert(t.next, NIL, h, list, 0, node);
      NoDuplicatesInserted(list, 1, node);
      assert Inserted(list, 1, node) == [h] + u.chains[h];
      assert At(list, 1, NIL) == t.next[h];
      assert t.next[h := node][node := t.next[h]] == u.next;
    } else {
      NotInOther(t, hash, h, i, h);
      OtherChain(t, hash, i, u.next, {h, node});
    }
  }

  /** Chains without the changed nodes stay as they are. */
  lemma OtherChain<K(!new), V>(t: Table<K, V>, hash: K -> int, i: nat, next: Links, changed: set<int>)
    requires TableOk(t, hash) && i < SIZE && i !in changed && (forall x :: x in changed ==> x !in t.chains[i])
    requires forall x :: x in t.next && x !in changed ==> x in next && next[x] == t.next[x]
    ensures ChainOk(next, i, t.chains[i])
  {
    hide Linked, NoDuplicates, NodeOk, HasKey;
    assert ChainOk(t.next, i, t.chains[i]);
    var list := [i] + t.chains[i];
    LinkedHead(t.next, NIL, i, list);
    LinkedFrame(t.next, next, NIL, i, list);
  }

  // ---- erase ----

  /** Node `j` of bucket `h` unlinked. */
  function Dropped<K, V>(t: Table<K, V>, h: nat, j: nat, k: K): Table<K, V>
    requires h < |t.chains| && j < |t.chains[h]| && t.chains[h][j] in t.next
  {
    var at := ([h] + t.chains[h])[j];
    Table(t.next[at := t.next[t.chains[h][j]]], t.keys, t.values, t.chains[h := Without(t.chains[h], j)],
        t.contents - {k})
  }

  lemma DroppedOk<K(!new), V>(t: Table<K, V>, hash: K -> int, k: K, j: nat)
    requires TableOk(t, hash) && 0 <= hash(k) < SIZE && j < |t.chains[hash(k)]|
    requires t.chains[hash(k)][j] in t.keys && t.keys[t.chains[hash(k)][j]] == k
    ensures t.chains[hash(k)][j] in t.next && TableOk(Dropped(t, hash(k), j, k), hash)
  {
    hide ChainOk, NodeOk, HasKey, Without;
    var h := hash(k);
    Cursor(t, hash, h, j + 1);
    var u := Dropped(t, h, j, k);
    forall i | 0 <= i < SIZE
      ensures ChainOk(u.next, i, u.chains[i])
    {
      DroppedChain(t, hash, k, j, i);
    }
    forall i, x | 0 <= i < SIZE && x in u.chains[i]
      ensures x in t.chains[i] && NodeOk(u, hash, i, x)
    {
      DroppedNode(t, hash, k, j, i, x);
    }
    forall c | c in u.contents
      ensures 0 <= hash(c) && HasKey(u, hash(c), c)
    {
      DroppedKey(t, hash, k, j, c);
    }
  }

  lemma DroppedChain<K(!new), V>(t: Table<K, V>, hash: K -> int, k: K, j: nat, i: nat)
    requires TableOk(t, hash) && 0 <= hash(k) < SIZE && j < |t.chains[hash(k)]| && i < SIZE
    requires t.chains[hash(k)][j] in t.next
    ensures var u := Dropped(t, hash(k), j, k); ChainOk(u.next, i, u.chains[i])
  {
    hide Linked, NoDuplicates, NodeOk, HasKey;
    var h := hash(k);
    var u := Dropped(t, h, j, k);
    assert ChainOk(t.next, h, t.chains[h]);
    var list := [h] + t.chains[h];
    if i == h {
      LinkedRemove(t.next, NIL, h, list, j);
      NoDuplicatesWithout(list, j + 1);
      assert list[j + 1] == t.chains[h][j];
      assert Without(list, j + 1) == [h] + Without(t.chains[h], j);
    } else {
      assert list[j] == h || (j > 0 && list[j] == t.chains[h][j - 1] && list[j] in t.chains[h]);
      NotInOther(t, hash, h, i, list[j]);
      OtherChain(t, hash, i, u.next, {list[j]});
    }
  }

  lemma NotInOther<K(!new), V>(t: Table<K, V>, hash: K -> int, h: nat, i: nat, x: int)
    requires TableOk(t, hash) && h < SIZE && i < SIZE && i != h && (x == h || x in t.chains[h])
    ensures x != i && x !in t.chains[i]
  {
    hide ChainOk, HasKey;
    assert x in t.chains[i] ==> NodeOk(t, hash, i, x);
    assert x in t.chains[h] ==> NodeOk(t, hash, h, x);
  }

  lemma DroppedNode<K(!new), V>(t: Table<K, V>, hash: K -> int, k: K, j: nat, i: nat, x: int)
    requires TableOk(t, hash) && 0 <= hash(k) < SIZE && j < |t.chains[hash(k)]| && i < SIZE
    requires t.chains[hash(k)][j] in t.keys && t.keys[t.chains[hash(k)][j]] == k && t.chains[hash(k)][j] in t.next
    requires x in Dropped(t, hash(k), j, k).chains[i]
    ensures x in t.chains[i] && NodeOk(Dropped(t, hash(k), j, k), hash, i, x)
  {
    hide HasKey;
    var h := hash(k);
    ChainDistinct(t, hash, h);
    NoDuplicatesWithout(t.chains[h], j);
    assert x in t.chains[i] && NodeOk(t, hash, i, x);
    assert t.chains[h][j] in t.chains[h];
  }

  lemma ChainDistinct<K(!new), V>(t: Table<K, V>, hash: K -> int, h: nat)
    requires TableOk(t, hash) && h < SIZE
    ensures NoDuplicates(t.chains[h])
  {
    hide Linked, NodeOk, HasKey;
    assert ChainOk(t.next, h, t.chains[h]);
    var list, c := [h] + t.chains[h], t.chains[h];
    forall a, b | 0 <= a < b < |c|
      ensures c[a] != c[b]
    {
      assert list[a + 1] != list[b + 1];
    }
  }

  lemma DroppedKey<K(!new), V>(t: Table<K, V>, hash: K -> int, k: K, j: nat, c: K)
    requires TableOk(t, hash) && 0 <= hash(k) < SIZE && j < |t.chains[hash(k)]|
    requires t.chains[hash(k)][j] in t.keys && t.keys[t.chains[hash(k)][j]] == k && t.chains[hash(k)][j] in t.next
    requires c in t.contents && c != k
    ensures 0 <= hash(c) && HasKey(Dropped(t, hash(k), j, k), hash(c), c)
  {
    hide ChainOk, NodeOk;
    var h := hash(k);
    ChainDistinct(t, hash, h);
    NoDuplicatesWithout(t.chains[h], j);
    assert HasKey(t, hash(c), c);
    var x :| x in t.chains[hash(c)] && x in t.keys && t.keys[x] == c;
    var u := Dropped(t, h, j, k);
    assert x in u.chains[hash(c)] && u.keys[x] == c;
  }

  // ---- the table itself ----

  class HashTable<K(==, !new), V> {
    const hash: K -> int
    var next: Links
    var keys: map<int, K>
    var values: map<int, V>
    ghost var chains: seq<seq<int>>
    ghost var contents: map<K, V>

    ghost function View(): Table<K, V>
      reads this
    {
      Table(next, keys, values, chains, contents)
    }

    ghost predicate Valid()
      reads this
    {
      |chains| == SIZE && TableOk(View(), hash)
    }

    /** hash_table_init */
    constructor (hash: K -> int)
      ensures Valid() && contents == map[] && this.hash == hash
      ensures forall x :: Unused(View(), x)
    {
      this.hash := hash;
      next, keys, values := map[], map[], map[];
      chains, contents := seq(SIZE, i => []), map[];
      new;
      var i := 0;
      while i < SIZE
        invariant 0 <= i <= SIZE && keys == map[] && values == map[] && contents == map[]
        invariant |chains| == SIZE && forall h :: 0 <= h < SIZE ==> chains[h] == []
        invariant forall h :: 0 <= h < i ==> h in next && next[h] == NIL
      {
        next := next[i := NIL];
        i := i + 1;
      }
      assert forall h: nat :: h < SIZE ==> [h] + chains[h] == [h];
    }

    /** defalut_get */
    method Get(k: K) returns (r: Option<V>)
      requires Valid() && 0 <= hash(k) < SIZE
      ensures r == if k in contents then Some(contents[k]) else None
    {
      hide TableOk;
      var h := hash(k);
      ghost var j := 0;
      Cursor(View(), hash, h, 0);
      var node := next[h];
      while node != NIL
        invariant 0 <= j <= |chains[h]| && node == At(chains[h], j, NIL) && (node == NIL <==> j == |chains[h]|)
        invariant forall m :: 0 <= m < j ==> chains[h][m] in keys && keys[chains[h][m]] != k
        decreases |chains[h]| - j
      {
        Cursor(View(), hash, h, j);
        Cursor(View(), hash, h, j + 1);
        if keys[node] == k {
          WalkEnds(View(), hash, k, j);
          return Some(values[node]);
        }
        node := next[node];
        j := j + 1;
      }
      WalkEnds(View(), hash, k, j);
      r := None;
    }

    /** default_put: refused if the key is there; otherwise the node goes behind the bucket's head. */
    method Put(k: K, v: V, node: int) returns (ok: bool)
      requires Valid() && 0 <= hash(k) < SIZE && node >= SIZE && Unused(View(), node)
      modifies this
      ensures Valid() && ok == (k !in old(contents))
      ensures contents == if ok then old(contents)[k := v] else old(contents)
      ensures forall x :: x != node && Unused(old(View()), x) ==> Unused(View(), x)
    {
      hide TableOk;
      var r := Get(k);
      if r.Some? {
        return false;
      }
      var h := hash(k);
      AddedOk(View(), hash, k, v, node);
      keys := keys[node := k];
      values := values[node := v];
      next := next[node := next[h]];
      next := next[h := node];
      chains := chains[h := [node] + chains[h]];
      contents := contents[k := v];
      ok := true;
    }

    /** default_erase */
    method Erase(k: K) returns (ok: bool)
      requires Valid() && 0 <= hash(k) < SIZE
      modifies this
      ensures Valid() && ok == (k in old(contents)) && contents == old(contents) - {k}
      ensures forall x :: Unused(old(View()), x) ==> Unused(View(), x)
    {
      hide TableOk;
      var h := hash(k);
      ghost var list, j := [h] + chains[h], 0;
      var head := h;
      Cursor(View(), hash, h, 0);
      while next[head] != NIL && keys[next[head]] != k
        invariant View() == old(View())
        invariant 0 <= j <= |chains[h]| && head == list[j] && head in next && next[head] == At(chains[h], j, NIL)
        invariant (next[head] == NIL <==> j == |chains[h]|) && (next[head] != NIL ==> next[head] in keys)
        invariant forall m :: 0 <= m < j ==> chains[h][m] in keys && keys[chains[h][m]] != k
        decreases |chains[h]| - j
      {
        head := next[head];
        j := j + 1;
        Cursor(View(), hash, h, j);
      }
      WalkEnds(View(), hash, k, j);
      if next[head] != NIL {
        DroppedOk(View(), hash, k, j);
        DroppedUnused(View(), h, j, k);
        var node := next[head];
        next := next[head := next[node]];
        chains := chains[h := Without(chains[h], j)];
        contents := contents - {k};
        ok := true;
      } else {
        ok := false;
      }
    }
  }

  lemma DroppedUnused<K(!new), V>(t: Table<K, V>, h: nat, j: nat, k: K)
    requires h < |t.chains| && j < |t.chains[h]| && t.chains[h][j] in t.next
    ensures forall x :: Unused(t, x) ==> Unused(Dropped(t, h, j, k), x)
  {
  }
}
