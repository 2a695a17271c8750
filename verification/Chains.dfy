/** Singly linked lists threaded through a `next` field: the free page list, the heap block lists,
    the process queues and the hash chains of the kernel all have this shape. */
module Chains {
  import opened Basics

  /** The `next` field of every node. */
  type Links = map<int, int>

  /** Element `i` of a list, or the null link past its end. */
  function At(list: seq<int>, i: nat, nil: int): int {
    if i < |list| then list[i] else nil
  }

  /** Following `next` from `head` visits exactly the nodes of `list`, in order, and then ends. */
  ghost predicate Linked(next: Links, nil: int, head: int, list: seq<int>) {
    && head == At(list, 0, nil)
    && (forall i :: 0 <= i < |list| ==> list[i] != nil && list[i] in next)
    && (forall i {:trigger next[list[i]]} :: 0 <= i < |list| ==> next[list[i]] == At(list, i + 1, nil))
  }

  function Inserted(s: seq<int>, i: nat, x: int): seq<int>
    requires i <= |s|
  {
    s[..i] + [x] + s[i..]
  }

  /** The link of one node. */
  lemma LinkedAt(next: Links, nil: int, head: int, list: seq<int>, i: nat)
    requires Linked(next, nil, head, list) && i < |list|
    ensures list[i] != nil && list[i] in next && next[list[i]] == At(list, i + 1, nil)
  {
  }

  /** A pointer into a list: null exactly past the end, and its link points one further. */
  lemma LinkedCursor(next: Links, nil: int, head: int, list: seq<int>, i: nat)
    requires Linked(next, nil, head, list) && i <= |list|
    ensures At(list, i, nil) == nil <==> i == |list|
    ensures i < |list| ==>
        list[i] in next && next[list[i]] == At(list, i + 1, nil) && (next[list[i]] == nil <==> i + 1 == |list|)
  {
  }

  lemma LinkedHead(next: Links, nil: int, head: int, list: seq<int>)
    requires Linked(next, nil, head, list)
    ensures head == At(list, 0, nil) && (head == nil <==> list == [])
    ensures nil !in list && forall x :: x in list ==> x in next
  {
  }

  /** Writing the links of other nodes does not disturb a list. */
  lemma LinkedFrame(next: Links, next': Links, nil: int, head: int, list: seq<int>)
    requires Linked(next, nil, head, list)
    requires forall x :: x in list ==> x in next' && next'[x] == next[x]
    ensures Linked(next', nil, head, list)
  {
    forall i | 0 <= i < |list|
      ensures list[i] in next' && next'[list[i]] == At(list, i + 1, nil)
    {
      assert list[i] in list;
    }
  }

  lemma LinkedTail(next: Links, nil: int, head: int, list: seq<int>)
    requires Linked(next, nil, head, list) && list != []
    ensures head in next && Linked(next, nil, next[head], list[1..])
  {
    forall i | 0 <= i < |list[1..]|
      ensures list[1..][i] in next && next[list[1..][i]] == At(list[1..], i + 1, nil)
    {
      assert list[1..][i] == list[i + 1];
    }
  }

  lemma LinkedPush(next: Links, nil: int, head: int, list: seq<int>, x: int)
    requires Linked(next, nil, head, list) && x !in list && x != nil
    ensures Linked(next[x := head], nil, x, [x] + list)
  {
    var next', list' := next[x := head], [x] + list;
    forall i | 0 <= i < |list'|
      ensures list'[i] != nil && list'[i] in next' && next'[list'[i]] == At(list', i + 1, nil)
    {
      if i > 0 {
        assert list'[i] == list[i - 1] && list[i - 1] in list;
      }
    }
  }

  /** Unlinking the node after position `i`. */
  lemma LinkedRemove(next: Links, nil: int, head: int, list: seq<int>, i: nat)
    requires Linked(next, nil, head, list) && NoDuplicates(list) && i + 1 < |list|
    ensures list[i + 1] in next
    ensures Linked(next[list[i] := next[list[i + 1]]], nil, head, Without(list, i + 1))
  {
    var next', list' := next[list[i] := next[list[i + 1]]], Without(list, i + 1);
    forall j | 0 <= j < |list'|
      ensures list'[j] != nil && list'[j] in next' && next'[list'[j]] == At(list', j + 1, nil)
    {
      var k := if j <= i then j else j + 1;
      assert list'[j] == list[k];
      assert k != i ==> list[k] != list[i];
    }
  }

  /** Linking `x` in after position `i`. */
  lemma LinkedInsert(next: Links, nil: int, head: int, list: seq<int>, i: nat, x: int)
    requires Linked(next, nil, head, list) && NoDuplicates(list) && i < |list| && x !in list && x != nil
    ensures Linked(next[list[i] := x][x := At(list, i + 1, nil)], nil, head, Inserted(list, i + 1, x))
  {
    var next', list' := next[list[i] := x][x := At(list, i + 1, nil)], Inserted(list, i + 1, x);
    forall j | 0 <= j < |list'|
      ensures list'[j] != nil && list'[j] in next' && next'[list'[j]] == At(list', j + 1, nil)
    {
      if j != i + 1 {
        var k := if j <= i then j else j - 1;
        assert list'[j] == list[k] && list[k] in list;
        assert k != i ==> list[k] != list[i];
      }
    }
  }

  /** Putting `x` in the place of the node at position `i`. */
  lemma LinkedReplace(next: Links, nil: int, head: int, list: seq<int>, i: nat, x: int)
    requires Linked(next, nil, head, list) && NoDuplicates(list) && i < |list| && x !in list && x != nil
    ensures list[i] in next
    ensures var linked := next[x := next[list[i]]];
            if i == 0 then Linked(linked, nil, x, list[0 := x])
            else Linked(linked[list[i - 1] := x], nil, head, list[i := x])
  {
    var linked, list' := next[x := next[list[i]]], list[i := x];
    var next' := if i == 0 then linked else linked[list[i - 1] := x];
    forall j | 0 <= j < |list'|
      ensures list'[j] != nil && list'[j] in next' && next'[list'[j]] == At(list', j + 1, nil)
    {
      if j != i {
        assert list[j] in list;
        assert i > 0 && j != i - 1 ==> list[j] != list[i - 1];
      }
    }
  }

  lemma NoDuplicatesReplace(s: seq<int>, i: nat, x: int)
    requires NoDuplicates(s) && i < |s| && x !in s
    ensures var r := s[i := x];
            NoDuplicates(r) && s[i] !in r && forall y :: y in r <==> y == x || (y in s && y != s[i])
  {
    var r := s[i := x];
    assert r[i] == x;
    forall y | y in s && y != s[i]
      ensures y in r
    {
      var j :| 0 <= j < |s| && s[j] == y;
      assert r[j] == y;
    }
  }

  lemma NoDuplicatesWithout(s: seq<int>, i: nat)
    requires NoDuplicates(s) && i < |s|
    ensures NoDuplicates(Without(s, i)) && s[i] !in Without(s, i)
    ensures forall x :: x in Without(s, i) <==> x in s && x != s[i]
  {
    var t := Without(s, i);
    forall j | 0 <= j < |t|
      ensures t[j] == s[if j < i then j else j + 1]
    {
    }
    forall x | x in s && x != s[i]
      ensures x in t
    {
      var j :| 0 <= j < |s| && s[j] == x;
      assert t[if j < i then j else j - 1] == x;
    }
  }

  lemma NoDuplicatesInserted(s: seq<int>, i: nat, x: int)
    requires NoDuplicates(s) && i <= |s| && x !in s
    ensures NoDuplicates(Inserted(s, i, x))
    ensures forall y :: y in Inserted(s, i, x) <==> y in s || y == x
  {
    var t := Inserted(s, i, x);
    forall j | 0 <= j < |t|
      ensures t[j] == if j < i then s[j] else if j == i then x else s[j - 1]
    {
    }
    forall y | y in s
      ensures y in t
    {
      var j :| 0 <= j < |s| && s[j] == y;
      assert t[if j < i then j else j + 1] == y;
    }
  }
}
