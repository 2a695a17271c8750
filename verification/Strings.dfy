/** The string routines of util/string.c that the file system relies on. */
module Strings {
  import opened RfsFile

  /** `n` elements copied from index `src` to index `dst`. */
  function Moved<T>(s: seq<T>, dst: nat, src: nat, n: nat): (r: seq<T>)
    requires dst + n <= |s| && src + n <= |s|
    ensures |r| == |s|
  {
    s[..dst] + s[src..src + n] + s[dst + n..]
  }

  lemma MovedAt<T>(s: seq<T>, dst: nat, src: nat, n: nat, i: nat)
    requires dst + n <= |s| && src + n <= |s| && i < |s|
    ensures Moved(s, dst, src, n)[i] == if dst <= i < dst + n then s[i - dst + src] else s[i]
  {
  }

  /** memmove inside one buffer: right for every overlap, because the copy runs backwards exactly when
      the destination starts inside the source. */
  method MemMove<T>(a: array<T>, dst: nat, src: nat, n: nat)
    requires dst + n <= a.Length && src + n <= a.Length
    modifies a
    ensures a[..] == Moved(old(a[..]), dst, src, n)
  {
    if src < dst && src + n > dst {
      MoveBackwards(a, dst, src, n);
    } else {
      MoveForwards(a, dst, src, n);
    }
  }

  method MoveBackwards<T>(a: array<T>, dst: nat, src: nat, n: nat)
    requires src < dst && dst + n <= a.Length
    modifies a
    ensures a[..] == Moved(old(a[..]), dst, src, n)
  {
    hide Moved;
    ghost var was := a[..];
    var k := n;
    MovedNone(was, dst + n, src + n);
    while k > 0
      invariant 0 <= k <= n && a[..] == Moved(was, dst + k, src + k, n - k)
    {
      k := k - 1;
      BackwardStep(was, dst, src, n, k);
      ghost var m := a[..];
      a[dst + k] := a[src + k];
      assert a[..] == m[dst + k := m[src + k]];
    }
  }

  method MoveForwards<T>(a: array<T>, dst: nat, src: nat, n: nat)
    requires dst <= src || src + n <= dst
    requires dst + n <= a.Length && src + n <= a.Length
    modifies a
    ensures a[..] == Moved(old(a[..]), dst, src, n)
  {
    ghost var was := a[..];
    var k := 0;
    while k < n
      invariant 0 <= k <= n && a[..] == Moved(was, dst, src, k)
    {
      ForwardStep(was, dst, src, k);
      a[dst + k] := a[src + k];
      k := k + 1;
    }
  }

  lemma MovedNone<T>(s: seq<T>, dst: nat, src: nat)
    requires dst <= |s| && src <= |s|
    ensures Moved(s, dst, src, 0) == s
  {
  }

  lemma BackwardStep<T>(s: seq<T>, dst: nat, src: nat, n: nat, k: nat)
    requires src < dst && dst + n <= |s| && k < n
    ensures var m := Moved(s, dst + k + 1, src + k + 1, n - k - 1);
            m[dst + k := m[src + k]] == Moved(s, dst + k, src + k, n - k)
  {
  }

  lemma ForwardStep<T>(s: seq<T>, dst: nat, src: nat, k: nat)
    requires dst <= src || src + k < dst
    requires dst + k < |s| && src + k < |s|
    ensures var m := Moved(s, dst, src, k);
            m[dst + k := m[src + k]] == Moved(s, dst, src, k + 1)
  {
  }

  /** strcmp on two terminated buffers: zero exactly for equal strings, otherwise the difference of
      the first bytes that differ. */
  method StrCmp(a: seq<Byte>, b: seq<Byte>) returns (r: int)
    requires 0 in a && 0 in b
    ensures r == 0 <==> UpToNul(a) == UpToNul(b)
    ensures r != 0 ==> exists i: nat ::
              i < |a| && i < |b| && a[..i] == b[..i] && 0 !in a[..i]
              && r == a[i] as int - b[i] as int
  {
    var i := 0;
    while i < |a| && i < |b| && a[i] != 0 && a[i] == b[i]
      invariant i <= |a| && i <= |b| && a[..i] == b[..i] && 0 !in a[..i]
    {
      assert a[..i + 1] == a[..i] + [a[i]] && b[..i + 1] == b[..i] + [b[i]];
      i := i + 1;
    }
    assert a[..i] != a && b[..i] != b;
    r := a[i] as int - b[i] as int;
    if r == 0 {
      UpToNulUnique(a, a[..i]);
      UpToNulUnique(b, b[..i]);
    } else {
      StringsDiffer(a, b, i);
    }
  }

  lemma {:induction false} UpToNulAtLeast(s: seq<Byte>, i: nat)
    requires i <= |s| && 0 !in s[..i]
    ensures i <= |UpToNul(s)|
  {
    if i > 0 {
      assert s[..i][0] == s[0] && s[1..][..i - 1] == s[..i][1..];
      UpToNulAtLeast(s[1..], i - 1);
    }
  }

  lemma StringsDiffer(a: seq<Byte>, b: seq<Byte>, i: nat)
    requires i < |a| && i < |b| && a[..i] == b[..i] && 0 !in a[..i] && a[i] != b[i]
    ensures UpToNul(a) != UpToNul(b)
  {
    UpToNulAtLeast(a, i);
    UpToNulAtLeast(b, i);
  }
}
