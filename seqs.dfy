/**
 * Sequence combinators behind the rule loops, the grouping `reduce` and the
 * two sorts of the system (`Array.prototype.sort`, which is stable).
 */
module Seqs {

  /** Every element's output in turn: what a `forEach` that pushes `f(e)` for each `e` leaves behind. */
  function FlatMap<T, U>(s: seq<T>, f: T -> seq<U>): seq<U> {
    if s == [] then [] else FlatMap(s[..|s| - 1], f) + f(s[|s| - 1])
  }

  /** A prefix one longer is the prefix and the next element. */
  lemma PrefixSnoc<T>(s: seq<T>, i: int)
    requires 0 <= i < |s|
    ensures s[..i + 1] == s[..i] + [s[i]]
  {
  }

  /** One more element appends its own output: the step of a pushing loop. */
  lemma FlatMapSnoc<T, U>(s: seq<T>, x: T, f: T -> seq<U>)
    ensures FlatMap(s + [x], f) == FlatMap(s, f) + f(x)
  {
    assert (s + [x])[..|s|] == s;
  }

  /** The output of a concatenation is the concatenation of the outputs, in order. */
  lemma {:induction false} FlatMapAppend<T, U>(a: seq<T>, b: seq<T>, f: T -> seq<U>)
    ensures FlatMap(a + b, f) == FlatMap(a, f) + FlatMap(b, f)
    decreases |b|
  {
    if b == [] {
      assert a + b == a;
    } else {
      var b' := b[..|b| - 1];
      assert a + b == (a + b') + [b[|b| - 1]];
      FlatMapSnoc(a + b', b[|b| - 1], f);
      FlatMapAppend(a, b', f);
      FlatMapSnoc(b', b[|b| - 1], f);
      assert b == b' + [b[|b| - 1]];
    }
  }

  /** When each element yields at most one output, there are at most as many outputs as elements. */
  lemma {:induction false} FlatMapAtMostOne<T, U>(s: seq<T>, f: T -> seq<U>)
    requires forall i :: 0 <= i < |s| ==> |f(s[i])| <= 1
    ensures |FlatMap(s, f)| <= |s|
  {
    if s != [] {
      FlatMapAtMostOne(s[..|s| - 1], f);
    }
  }

  /** An output comes from some element, and every element's outputs are in the result. */
  lemma {:induction false} FlatMapMember<T, U>(s: seq<T>, f: T -> seq<U>, y: U)
    ensures y in FlatMap(s, f) <==> exists i :: 0 <= i < |s| && y in f(s[i])
  {
    if s != [] {
      var n := |s| - 1;
      FlatMapMember(s[..n], f, y);
      assert forall i :: 0 <= i < n ==> s[..n][i] == s[i];
      if y in f(s[n]) {
        assert 0 <= n < |s| && y in f(s[n]);
      }
    }
  }

  /** The elements satisfying `p`, in order (JavaScript `filter`). */
  function Filter<T>(s: seq<T>, p: T -> bool): (r: seq<T>)
    ensures |r| <= |s|
  {
    if s == [] then [] else Filter(s[..|s| - 1], p) + (if p(s[|s| - 1]) then [s[|s| - 1]] else [])
  }

  lemma FilterSnoc<T>(s: seq<T>, x: T, p: T -> bool)
    ensures Filter(s + [x], p) == Filter(s, p) + (if p(x) then [x] else [])
  {
    assert (s + [x])[..|s|] == s;
  }

  /** What `filter` keeps: exactly the elements satisfying `p`. */
  lemma {:induction false} FilterMember<T>(s: seq<T>, p: T -> bool, y: T)
    ensures y in Filter(s, p) <==> y in s && p(y)
  {
    if s != [] {
      var n := |s| - 1;
      FilterMember(s[..n], p, y);
      assert s == s[..n] + [s[n]];
    }
  }

  /** A prefix's kept elements come first. */
  lemma {:induction false} FilterAppend<T>(a: seq<T>, b: seq<T>, p: T -> bool)
    ensures Filter(a + b, p) == Filter(a, p) + Filter(b, p)
    decreases |b|
  {
    if b == [] {
      assert a + b == a;
    } else {
      var b' := b[..|b| - 1];
      assert a + b == (a + b') + [b[|b| - 1]];
      FilterSnoc(a + b', b[|b| - 1], p);
      FilterAppend(a, b', p);
      FilterSnoc(b', b[|b| - 1], p);
      assert b == b' + [b[|b| - 1]];
    }
  }

  /** `s.map(g)` */
  function Map<T, U>(s: seq<T>, g: T -> U): (r: seq<U>)
    ensures |r| == |s|
  {
    if s == [] then [] else Map(s[..|s| - 1], g) + [g(s[|s| - 1])]
  }

  /** Each output is `g` of the input at the same position. */
  lemma {:induction false} MapIndex<T, U>(s: seq<T>, g: T -> U, i: int)
    requires 0 <= i < |s|
    ensures Map(s, g)[i] == g(s[i])
  {
    if i < |s| - 1 {
      MapIndex(s[..|s| - 1], g, i);
    }
  }

  lemma MapSnoc<T, U>(s: seq<T>, x: T, g: T -> U)
    ensures Map(s + [x], g) == Map(s, g) + [g(x)]
  {
    assert (s + [x])[..|s|] == s;
  }

  /** A loop that pushes `g(e)` for the elements satisfying `p` builds `s.filter(p).map(g)`. */
  lemma {:induction false} FlatMapSelect<T, U>(s: seq<T>, f: T -> seq<U>, p: T -> bool, g: T -> U)
    requires forall x :: f(x) == if p(x) then [g(x)] else []
    ensures FlatMap(s, f) == Map(Filter(s, p), g)
  {
    if s != [] {
      var n := |s| - 1;
      FlatMapSelect(s[..n], f, p, g);
      assert FlatMap(s, f) == FlatMap(s[..n], f) + f(s[n]);
      if p(s[n]) {
        assert Filter(s, p) == Filter(s[..n], p) + [s[n]];
        MapSnoc(Filter(s[..n], p), s[n], g);
      } else {
        assert Filter(s, p) == Filter(s[..n], p);
      }
    }
  }

  /** `le` is a total preorder: a comparator that `sort` can use consistently. */
  ghost predicate TotalPreorder<T(!new)>(le: (T, T) -> bool) {
    && (forall x, y :: le(x, y) || le(y, x))
    && (forall x, y, z :: le(x, y) && le(y, z) ==> le(x, z))
  }

  predicate Sorted<T>(s: seq<T>, le: (T, T) -> bool) {
    forall i, j :: 0 <= i < j < |s| ==> le(s[i], s[j])
  }

  /** Inserts `x` before the first element it does not follow. */
  function Insert<T>(x: T, s: seq<T>, le: (T, T) -> bool): (r: seq<T>)
    ensures |r| == |s| + 1
  {
    if s == [] then [x]
    else if le(x, s[0]) then [x] + s
    else [s[0]] + Insert(x, s[1..], le)
  }

  /** Insertion adds exactly `x`. */
  lemma {:induction false} InsertPermutes<T>(x: T, s: seq<T>, le: (T, T) -> bool)
    ensures multiset(Insert(x, s, le)) == multiset(s) + multiset{x}
  {
    if s != [] {
      assert s == [s[0]] + s[1..];
      if !le(x, s[0]) {
        InsertPermutes(x, s[1..], le);
      }
    }
  }

  /** The stable sort of `s` under `le`: for each element, front to back, insertion before later equal ones. */
  function Sort<T>(s: seq<T>, le: (T, T) -> bool): (r: seq<T>)
    ensures |r| == |s|
  {
    if s == [] then [] else Insert(s[0], Sort(s[1..], le), le)
  }

  /** The sort is a permutation of its input. */
  lemma {:induction false} SortPermutes<T>(s: seq<T>, le: (T, T) -> bool)
    ensures multiset(Sort(s, le)) == multiset(s)
  {
    if s != [] {
      SortPermutes(s[1..], le);
      InsertPermutes(s[0], Sort(s[1..], le), le);
      assert s == [s[0]] + s[1..];
    }
  }

  lemma {:induction false} InsertSorted<T(!new)>(x: T, s: seq<T>, le: (T, T) -> bool)
    requires TotalPreorder(le)
    requires Sorted(s, le)
    ensures Sorted(Insert(x, s, le), le)
  {
    if s != [] && !le(x, s[0]) {
      var t := s[1..];
      InsertSorted(x, t, le);
      var r := Insert(x, t, le);
      InsertPermutes(x, t, le);
      assert le(s[0], x);
      forall j | 0 <= j < |r| ensures le(s[0], r[j]) {
        assert r[j] in multiset(r);
        assert r[j] in multiset(t) || r[j] == x;
        if r[j] != x {
          var k :| 0 <= k < |t| && t[k] == r[j];
          assert s[k + 1] == t[k];
        }
      }
    }
  }

  /** The sort puts its output in order. */
  lemma {:induction false} SortSorted<T(!new)>(s: seq<T>, le: (T, T) -> bool)
    requires TotalPreorder(le)
    ensures Sorted(Sort(s, le), le)
  {
    if s != [] {
      SortSorted(s[1..], le);
      InsertSorted(s[0], Sort(s[1..], le), le);
    }
  }

  /** The elements of `s` that `le` ranks equal to `x`, in order. */
  function Equivalents<T>(s: seq<T>, x: T, le: (T, T) -> bool): seq<T> {
    if s == [] then []
    else (if le(x, s[0]) && le(s[0], x) then [s[0]] else []) + Equivalents(s[1..], x, le)
  }

  lemma {:induction false} InsertEquivalents<T(!new)>(y: T, s: seq<T>, x: T, le: (T, T) -> bool)
    requires TotalPreorder(le)
    ensures Equivalents(Insert(y, s, le), x, le)
         == (if le(x, y) && le(y, x) then [y] else []) + Equivalents(s, x, le)
  {
    var r := Insert(y, s, le);
    var ey := if le(x, y) && le(y, x) then [y] else [];
    if s == [] {
      assert r == [y];
    } else if le(y, s[0]) {
      assert r == [y] + s && r[0] == y && r[1..] == s;
    } else {
      var h := s[0];
      var e0 := if le(x, h) && le(h, x) then [h] else [];
      assert r[0] == h && r[1..] == Insert(y, s[1..], le);
      InsertEquivalents(y, s[1..], x, le);
      assert Equivalents(r, x, le) == e0 + (ey + Equivalents(s[1..], x, le));
      // `y` and `s[0]` cannot both be equivalent to `x`: `y` would then come before `s[0]`.
      assert le(y, x) && le(x, h) ==> le(y, h);
      assert e0 == [] || ey == [];
      assert Equivalents(s, x, le) == e0 + Equivalents(s[1..], x, le);
    }
  }

  /** Stability: the sort keeps every class of equal elements in its original order. */
  lemma {:induction false} SortStable<T(!new)>(s: seq<T>, x: T, le: (T, T) -> bool)
    requires TotalPreorder(le)
    ensures Equivalents(Sort(s, le), x, le) == Equivalents(s, x, le)
  {
    if s != [] {
      SortStable(s[1..], x, le);
      InsertEquivalents(s[0], Sort(s[1..], le), x, le);
    }
  }

  predicate NoDuplicates<T(==)>(s: seq<T>) {
    forall i, j :: 0 <= i < j < |s| ==> s[i] != s[j]
  }

  /** Inserting a new element into a list without duplicates keeps it without duplicates. */
  lemma {:induction false} InsertDistinct<T>(x: T, s: seq<T>, le: (T, T) -> bool)
    requires NoDuplicates(s) && x !in s
    ensures NoDuplicates(Insert(x, s, le))
  {
    if s != [] && !le(x, s[0]) {
      var t := s[1..];
      assert NoDuplicates(t) by {
        forall i, j | 0 <= i < j < |t| ensures t[i] != t[j] {
          assert t[i] == s[i + 1] && t[j] == s[j + 1];
        }
      }
      InsertDistinct(x, t, le);
      InsertPermutes(x, t, le);
      var r := Insert(x, t, le);
      assert s[0] !in multiset(r) by {
        assert s[0] !in t by {
          forall k | 0 <= k < |t| ensures t[k] != s[0] {
            assert t[k] == s[k + 1];
          }
        }
      }
      assert Insert(x, s, le) == [s[0]] + r;
      forall j | 0 < j < |[s[0]] + r| ensures ([s[0]] + r)[0] != ([s[0]] + r)[j] {
        assert ([s[0]] + r)[j] == r[j - 1];
        assert r[j - 1] in multiset(r);
      }
    }
  }

  /** Sorting a list without duplicates keeps it without duplicates. */
  lemma {:induction false} SortDistinct<T>(s: seq<T>, le: (T, T) -> bool)
    requires NoDuplicates(s)
    ensures NoDuplicates(Sort(s, le))
  {
    if s != [] {
      var t := s[1..];
      assert NoDuplicates(t) by {
        forall i, j | 0 <= i < j < |t| ensures t[i] != t[j] {
          assert t[i] == s[i + 1] && t[j] == s[j + 1];
        }
      }
      SortDistinct(t, le);
      SortPermutes(t, le);
      assert s[0] !in multiset(Sort(t, le)) by {
        forall k | 0 <= k < |t| ensures t[k] != s[0] {
          assert t[k] == s[k + 1];
        }
        assert s[0] !in t;
      }
      InsertDistinct(s[0], Sort(t, le), le);
    }
  }

  /** `[...new Set(s)]`: the first occurrence of each element, in order. */
  function Dedup<T(==)>(s: seq<T>): (r: seq<T>)
    ensures NoDuplicates(r)
    ensures forall i :: 0 <= i < |s| ==> s[i] in r
    ensures forall i :: 0 <= i < |r| ==> r[i] in s
  {
    if s == [] then []
    else
      var d := Dedup(s[..|s| - 1]);
      assert s == s[..|s| - 1] + [s[|s| - 1]];
      if s[|s| - 1] in d then d else d + [s[|s| - 1]]
  }

  /** One more element is kept exactly when it is new. */
  lemma DedupSnoc<T>(s: seq<T>, x: T)
    ensures Dedup(s + [x]) == if x in Dedup(s) then Dedup(s) else Dedup(s) + [x]
  {
    assert (s + [x])[..|s|] == s;
  }

  /** A sequence without duplicates is its own `Set` spread. */
  lemma {:induction false} DedupOfDistinct<T>(s: seq<T>)
    requires NoDuplicates(s)
    ensures Dedup(s) == s
  {
    if s != [] {
      var n := |s| - 1;
      DedupOfDistinct(s[..n]);
      assert s[n] !in s[..n];
      assert s == s[..n] + [s[n]];
    }
  }

  /** `[...new Set(s).add(x)]` */
  function AddToSet<T(==)>(s: seq<T>, x: T): seq<T> {
    Dedup(s + [x])
  }

  /** Adding to a duplicate-free list appends the element unless it is already there. */
  lemma AddToSetDistinct<T>(s: seq<T>, x: T)
    requires NoDuplicates(s)
    ensures AddToSet(s, x) == if x in s then s else s + [x]
  {
    DedupOfDistinct(s);
    assert (s + [x])[..|s|] == s;
  }

  /** `s.some(p)` */
  function Any<T>(s: seq<T>, p: T -> bool): (b: bool)
    ensures b <==> exists i :: 0 <= i < |s| && p(s[i])
  {
    if s == [] then false
    else
      var n := |s| - 1;
      assert forall i :: 0 <= i < n ==> s[..n][i] == s[i];
      Any(s[..n], p) || p(s[n])
  }

  /** Adding to the first-seen list of `s` is the first-seen list of `s` with one more occurrence. */
  lemma AddToSetOfDedup<T>(s: seq<T>, x: T)
    ensures AddToSet(Dedup(s), x) == Dedup(s + [x])
  {
    DedupSnoc(s, x);
    DedupSnoc(Dedup(s), x);
    DedupOfDistinct(Dedup(s));
  }

  /** A duplicate-free sequence whose elements all occur in `s` is no longer than `s`. */
  lemma DistinctSubsetLength<T>(d: seq<T>, s: seq<T>)
    requires NoDuplicates(d) && forall i :: 0 <= i < |d| ==> d[i] in s
    ensures |d| <= |s|
  {
    DistinctSetSize(d);
    SetSizeAtMost(s);
    var a := set x | x in d;
    var b := set x | x in s;
    assert a <= b;
    assert b == a + (b - a);
  }

  lemma {:induction false} DistinctSetSize<T>(d: seq<T>)
    requires NoDuplicates(d)
    ensures |set x | x in d| == |d|
  {
    if d != [] {
      var n := |d| - 1;
      var prefix := d[..n];
      assert NoDuplicates(prefix) by {
        forall i, j | 0 <= i < j < n ensures prefix[i] != prefix[j] {
          assert prefix[i] == d[i] && prefix[j] == d[j];
        }
      }
      DistinctSetSize(prefix);
      assert d[n] !in prefix by {
        forall i | 0 <= i < n ensures prefix[i] != d[n] {
          assert prefix[i] == d[i];
        }
      }
      assert d == prefix + [d[n]];
      assert (set x | x in d) == (set x | x in prefix) + {d[n]};
    }
  }

  lemma {:induction false} SetSizeAtMost<T>(s: seq<T>)
    ensures |set x | x in s| <= |s|
  {
    if s != [] {
      var n := |s| - 1;
      SetSizeAtMost(s[..n]);
      assert s == s[..n] + [s[n]];
      assert (set x | x in s) == (set x | x in s[..n]) + {s[n]};
    }
  }
}
