/** Byte-string order and the canonical sorted form of a keyed collection, as
    Rust's `Ord` on strings and UUIDs and its `BTreeSet`/`sort_by_key` give it. */
module Ordering {
  import opened Common

  newtype byte = x: int | 0 <= x < 256
  type Bytes = seq<byte>

  predicate Less(a: Bytes, b: Bytes) {
    b != [] && (a == [] || a[0] < b[0] || (a[0] == b[0] && Less(a[1..], b[1..])))
  }

  lemma {:induction false} LessTrichotomy(a: Bytes, b: Bytes)
    ensures Less(a, b) || a == b || Less(b, a)
    ensures Less(a, b) ==> a != b && !Less(b, a)
    decreases a
  {
    if a != [] && b != [] {
      LessTrichotomy(a[1..], b[1..]);
      if a[0] == b[0] && a[1..] == b[1..] {
        assert a == [a[0]] + a[1..] && b == [b[0]] + b[1..];
      }
    }
  }

  /** One precedes another exactly when it is a proper prefix of it, or has the lower
      byte where they first differ. */
  lemma {:induction false} LessIff(a: Bytes, b: Bytes)
    ensures Less(a, b) <==> exists i: nat :: Precedes(a, b, i)
    decreases a
  {
    if a != [] && b != [] && a[0] == b[0] {
      LessIff(a[1..], b[1..]);
      assert a == [a[0]] + a[1..] && b == [b[0]] + b[1..];
      forall i: nat ensures Precedes(a, b, i + 1) <==> Precedes(a[1..], b[1..], i) {
        PrecedesTail(a, b, i);
      }
      assert !Precedes(a, b, 0);
      if Less(a, b) {
        var i: nat :| Precedes(a[1..], b[1..], i);
        assert Precedes(a, b, i + 1);
      }
      if i: nat :| Precedes(a, b, i) {
        assert Precedes(a[1..], b[1..], i - 1);
      }
    } else {
      assert Less(a, b) <==> Precedes(a, b, 0);
    }
  }

  predicate Precedes(a: Bytes, b: Bytes, i: nat) {
    i <= |a| && i < |b| && a[..i] == b[..i] && (i < |a| ==> a[i] < b[i])
  }

  lemma PrecedesTail(a: Bytes, b: Bytes, i: nat)
    requires a != [] && b != [] && a[0] == b[0]
    ensures Precedes(a, b, i + 1) <==> Precedes(a[1..], b[1..], i)
  {
    if i < |a| && i < |b| {
      var x, y := a[1..][..i], b[1..][..i];
      assert a[..i + 1] == [a[0]] + x && b[..i + 1] == [b[0]] + y;
      assert a[..i + 1][1..] == x && b[..i + 1][1..] == y;
    }
  }

  lemma {:induction false} LessTransitive(a: Bytes, b: Bytes, c: Bytes)
    requires Less(a, b) && Less(b, c)
    ensures Less(a, c)
    decreases a
  {
    if a != [] && a[0] == b[0] == c[0] {
      LessTransitive(a[1..], b[1..], c[1..]);
    }
  }

  predicate SortedBy<T>(key: T -> Bytes, s: seq<T>) {
    forall i, j :: 0 <= i < j < |s| ==> Less(key(s[i]), key(s[j]))
  }

  /** Insertion into a sorted sequence; an element with a key already present
      replaces nothing, as `BTreeSet::insert` does. */
  function Insert<T>(key: T -> Bytes, x: T, s: seq<T>): seq<T> {
    if s == [] then [x]
    else if Less(key(x), key(s[0])) then [x] + s
    else if key(x) == key(s[0]) then s
    else [s[0]] + Insert(key, x, s[1..])
  }

  function Canonical<T>(key: T -> Bytes, s: seq<T>): seq<T> {
    if s == [] then [] else Insert(key, s[|s| - 1], Canonical(key, s[..|s| - 1]))
  }

  /** A stable sort, as `sort_by_key`: every element is kept, behind its equals. */
  function Place<T>(key: T -> Bytes, x: T, s: seq<T>): seq<T> {
    if s == [] then [x]
    else if Less(key(x), key(s[0])) then [x] + s
    else [s[0]] + Place(key, x, s[1..])
  }

  function StableSort<T>(key: T -> Bytes, s: seq<T>): seq<T> {
    if s == [] then [] else Place(key, s[|s| - 1], StableSort(key, s[..|s| - 1]))
  }

  ghost function Keys<T>(key: T -> Bytes, s: seq<T>): set<Bytes> { set x | x in s :: key(x) }

  lemma {:induction false} InsertSorted<T>(key: T -> Bytes, x: T, s: seq<T>)
    requires SortedBy(key, s)
    ensures SortedBy(key, Insert(key, x, s))
    ensures Elems(Insert(key, x, s)) == if key(x) in Keys(key, s) then Elems(s) else Elems(s) + {x}
    decreases s
  {
    if s == [] {
    } else {
      LessTrichotomy(key(x), key(s[0]));
      var r := Insert(key, x, s);
      if Less(key(x), key(s[0])) {
        forall j | 0 <= j < |s| ensures Less(key(x), key(s[j])) {
          if j > 0 { LessTransitive(key(x), key(s[0]), key(s[j])); }
        }
        forall y <- s ensures key(y) != key(x) {
          LessTrichotomy(key(x), key(y));
        }
        assert r == [x] + s;
      } else if key(x) == key(s[0]) {
        assert s[0] in s;
      } else {
        var t := s[1..];
        InsertSorted(key, x, t);
        assert s == [s[0]] + t;
        assert r == [s[0]] + Insert(key, x, t);
        forall y <- Insert(key, x, t) ensures Less(key(s[0]), key(y)) {
          assert y in Elems(Insert(key, x, t));
          assert y == x || y in t;
          if y in t { var j :| 0 <= j < |t| && t[j] == y; assert s[j + 1] == y; }
        }
        assert Keys(key, s) == Keys(key, t) + {key(s[0])};
        assert Elems(s) == Elems(t) + {s[0]};
        assert Elems(r) == Elems(Insert(key, x, t)) + {s[0]};
      }
    }
  }

  /** The canonical form is sorted and has the same keys; with distinct keys it
      keeps every element. */
  lemma {:induction false} CanonicalSorted<T>(key: T -> Bytes, s: seq<T>)
    ensures SortedBy(key, Canonical(key, s))
    ensures Elems(Canonical(key, s)) <= Elems(s)
    ensures Keys(key, Canonical(key, s)) == Keys(key, s)
    ensures (forall x, y | x in s && y in s :: key(x) == key(y) ==> x == y) ==> Elems(Canonical(key, s)) == Elems(s)
  {
    if s != [] {
      var t, x := s[..|s| - 1], s[|s| - 1];
      CanonicalSorted(key, t);
      InsertSorted(key, x, Canonical(key, t));
      assert s == t + [x];
      assert Elems(s) == Elems(t) + {x};
      var c, d := Canonical(key, t), Canonical(key, s);
      assert Keys(key, s) == Keys(key, t) + {key(x)};
      KeysOfElems(key, c);
      KeysOfElems(key, d);
      if (forall x, y | x in s && y in s :: key(x) == key(y) ==> x == y) && key(x) in Keys(key, c) {
        var y :| y in t && key(y) == key(x);
      }
    }
  }

  lemma {:induction false} PlaceKeeps<T>(key: T -> Bytes, x: T, s: seq<T>)
    ensures multiset(Place(key, x, s)) == multiset(s) + multiset{x}
    decreases s
  {
    if s != [] {
      assert s == [s[0]] + s[1..];
      PlaceKeeps(key, x, s[1..]);
    }
  }

  lemma {:induction false} PlaceIsInsert<T>(key: T -> Bytes, x: T, s: seq<T>)
    requires key(x) !in Keys(key, s)
    ensures Place(key, x, s) == Insert(key, x, s)
    decreases s
  {
    if s != [] {
      assert s[0] in s;
      assert forall y <- s[1..] :: y in s;
      PlaceIsInsert(key, x, s[1..]);
    }
  }

  /** The stable sort loses nothing. */
  lemma {:induction false} StableSortKeeps<T>(key: T -> Bytes, s: seq<T>)
    ensures multiset(StableSort(key, s)) == multiset(s)
  {
    if s != [] {
      var t, x := s[..|s| - 1], s[|s| - 1];
      StableSortKeeps(key, t);
      PlaceKeeps(key, x, StableSort(key, t));
      assert s == t + [x];
    }
  }

  predicate DistinctKeys<T>(key: T -> Bytes, s: seq<T>) {
    forall i, j :: 0 <= i < j < |s| ==> key(s[i]) != key(s[j])
  }

  lemma LastKeyFresh<T>(key: T -> Bytes, t: seq<T>, x: T)
    requires DistinctKeys(key, t + [x])
    ensures DistinctKeys(key, t) && key(x) !in Keys(key, t)
  {
    var s := t + [x];
    forall y <- t ensures key(y) != key(x) {
      var i :| 0 <= i < |t| && t[i] == y;
      assert s[i] == y && s[|t|] == x;
    }
    forall i, j | 0 <= i < j < |t| ensures key(t[i]) != key(t[j]) {
      assert s[i] == t[i] && s[j] == t[j];
    }
  }

  /** On distinct keys it gives the canonical form. */
  lemma {:induction false} StableSortIsCanonical<T>(key: T -> Bytes, s: seq<T>)
    requires DistinctKeys(key, s)
    ensures StableSort(key, s) == Canonical(key, s)
  {
    if s != [] {
      var t, x := s[..|s| - 1], s[|s| - 1];
      assert s == t + [x];
      LastKeyFresh(key, t, x);
      StableSortIsCanonical(key, t);
      assert key(x) !in Keys(key, Canonical(key, t)) by { CanonicalSorted(key, t); }
      PlaceIsInsert(key, x, Canonical(key, t));
    }
  }

  lemma KeysOfElems<T>(key: T -> Bytes, s: seq<T>)
    ensures Keys(key, s) == set x | x in Elems(s) :: key(x)
  {
  }

  /** There is only one sorted arrangement of a collection. */
  lemma {:induction false} SortedUnique<T>(key: T -> Bytes, s: seq<T>, t: seq<T>)
    requires SortedBy(key, s) && SortedBy(key, t)
    requires Elems(s) == Elems(t)
    ensures s == t
    decreases s
  {
    ElemsEmpty(s);
    ElemsEmpty(t);
    if s != [] {
      var x, y := s[0], t[0];
      assert x in Elems(t) && y in Elems(s);
      var i :| 0 <= i < |t| && t[i] == x;
      var j :| 0 <= j < |s| && s[j] == y;
      LessTrichotomy(key(x), key(y));
      assert x == y;
      TailElems(key, s);
      TailElems(key, t);
      SortedUnique(key, s[1..], t[1..]);
      assert s == [x] + s[1..] && t == [y] + t[1..];
    }
  }

  lemma TailElems<T>(key: T -> Bytes, s: seq<T>)
    requires s != [] && SortedBy(key, s)
    ensures SortedBy(key, s[1..]) && Elems(s[1..]) == Elems(s) - {s[0]}
  {
    assert s == [s[0]] + s[1..];
    forall y <- s[1..] ensures y != s[0] {
      var j :| 0 <= j < |s[1..]| && s[1..][j] == y;
      assert s[j + 1] == y;
      LessTrichotomy(key(s[0]), key(y));
    }
  }
}
