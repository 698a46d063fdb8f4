/** Small vocabulary shared by the models: optional values, results, and the
    finite-set facts (counting, pigeonhole) that the protocol proofs rest on. */
module Common {

  datatype Option<+T> = None | Some(value: T)

  datatype Result<+T, +E> = Ok(value: T) | Err(error: E)

  predicate NoDup<T(==)>(s: seq<T>) {
    forall i, j :: 0 <= i < j < |s| ==> s[i] != s[j]
  }

  function Elems<T>(s: seq<T>): set<T> { set x | x in s }

  /** The last `n` elements, or all there are. */
  function Latest<T>(s: seq<T>, n: nat): seq<T> { if |s| <= n then s else s[|s| - n..] }

  function Lookup<K, V>(m: map<K, V>, k: K): Option<V> { if k in m then Some(m[k]) else None }

  lemma ElemsEmpty<T>(s: seq<T>)
    ensures Elems(s) == {} <==> s == []
  {
    if s != [] {
      assert s[0] in Elems(s);
    }
  }

  lemma ElemsSnoc<T>(s: seq<T>, x: T)
    ensures Elems(s + [x]) == Elems(s) + {x}
  {
  }

  /** A sequence never has more distinct elements than positions, and it has as
      many exactly when it repeats nothing. */
  lemma {:induction false} ElemsCount<T>(s: seq<T>)
    ensures |Elems(s)| <= |s|
    ensures |Elems(s)| == |s| <==> NoDup(s)
  {
    if s == [] {
      assert Elems(s) == {};
    } else {
      var t, x := s[..|s| - 1], s[|s| - 1];
      ElemsCount(t);
      assert s == t + [x];
      ElemsSnoc(t, x);
      if x in t {
        assert Elems(s) == Elems(t);
        var i :| 0 <= i < |t| && t[i] == x;
        assert s[i] == s[|s| - 1];
      } else {
        assert NoDup(t) ==> NoDup(s);
        assert NoDup(s) ==> forall i, j :: 0 <= i < j < |t| ==> t[i] == s[i] && t[j] == s[j] && t[i] != t[j];
      }
    }
  }

  lemma SubsetCount<T>(a: set<T>, b: set<T>)
    requires a <= b
    ensures |a| <= |b|
    ensures |a| == |b| ==> a == b
  {
    assert b == a + (b - a);
    assert |b| == |a| + |b - a|;
    if |a| == |b| {
      assert b - a == {};
    }
  }

  lemma DifferenceCount<T>(a: set<T>, b: set<T>)
    ensures |a| >= |b| <==> |a - b| >= |b - a|
  {
    assert a == a * b + (a - b) && b == a * b + (b - a);
    assert |a| == |a * b| + |a - b| && |b| == |a * b| + |b - a|;
  }

  /** Two subsets of `all` that together outnumber it have a common member. */
  lemma OverlapByCount<T>(a: set<T>, b: set<T>, all: set<T>)
    requires a <= all && b <= all
    requires |a| + |b| > |all|
    ensures a * b != {}
  {
    SubsetCount(a + b, all);
    assert |a + b| == |a| + |b| - |a * b|;
  }
}
