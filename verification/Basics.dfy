/** What several of the models share: optional values, sequences without repetition, and the keys of a
    map that have a given value. */
module Basics {

  datatype Option<+T> = None | Some(value: T)

  ghost predicate NoDuplicates(s: seq<int>) {
    forall i, j :: 0 <= i < j < |s| ==> s[i] != s[j]
  }

  function Without<T>(s: seq<T>, i: nat): seq<T>
    requires i < |s|
  {
    s[..i] + s[i + 1..]
  }

  /** The keys of `m` with value `v`. */
  ghost function Fiber<K, V>(m: map<K, V>, v: V): set<K> {
    set k | k in m && m[k] == v
  }

  lemma FiberAdd<K, V>(m: map<K, V>, k: K, x: V, v: V)
    requires k !in m
    ensures |Fiber(m[k := x], v)| == |Fiber(m, v)| + if x == v then 1 else 0
  {
    var a, b := Fiber(m, v), Fiber(m[k := x], v);
    if x == v {
      assert b == a + {k};
    } else {
      assert b == a;
    }
  }

  lemma FiberDrop<K, V>(m: map<K, V>, k: K, v: V)
    requires k in m
    ensures |Fiber(m - {k}, v)| == |Fiber(m, v)| - if m[k] == v then 1 else 0
  {
    var a, b := Fiber(m, v), Fiber(m - {k}, v);
    if m[k] == v {
      assert a == b + {k};
    } else {
      assert a == b;
    }
  }
}
