/** Sequence helpers shared by the builders: sizes of nested lists,
    `itertools::tuple_combinations`, sorting, `Vec::dedup` and first-seen
    deduplication. */
module Seqs {

  /** Σ |ss[i]|, the number of entries of a list of lists. */
  function TotalSize<T>(ss: seq<seq<T>>): nat {
    if |ss| == 0 then 0 else TotalSize(ss[..|ss| - 1]) + |ss[|ss| - 1]|
  }

  lemma TotalSizePrefix<T>(ss: seq<seq<T>>, r: nat)
    requires r < |ss|
    ensures TotalSize(ss[..r + 1]) == TotalSize(ss[..r]) + |ss[r]|
  {
    assert ss[..r + 1][..r] == ss[..r];
  }

  lemma TotalSizeMonotone<T>(ss: seq<seq<T>>, r: nat, q: nat)
    requires r <= q <= |ss|
    ensures TotalSize(ss[..r]) <= TotalSize(ss[..q])
    decreases q - r
  {
    if r < q {
      TotalSizePrefix(ss, q - 1);
      TotalSizeMonotone(ss, r, q - 1);
    }
  }

  predicate Distinct<T(==)>(s: seq<T>) {
    forall i, j :: 0 <= i < j < |s| ==> s[i] != s[j]
  }

  predicate Increasing(s: seq<nat>) {
    forall i, j :: 0 <= i < j < |s| ==> s[i] < s[j]
  }

  /** A duplicate-free sequence holds each of its elements exactly once. */
  lemma {:induction false} DistinctCount<T>(s: seq<T>, x: T)
    requires Distinct(s)
    ensures multiset(s)[x] == if x in s then 1 else 0
  {
    if |s| > 0 {
      assert s == [s[0]] + s[1..];
      assert Distinct(s[1..]);
      DistinctCount(s[1..], x);
      if x == s[0] {
        assert x !in s[1..];
      }
    }
  }

  // ---------------------------------------------------------------------------
  // tuple_combinations

  /** The pairs `(s[i], s[j])` with `i < j`, in the order `tuple_combinations` yields them. */
  function Combinations<T>(s: seq<T>): seq<(T, T)> {
    if |s| == 0 then []
    else seq(|s| - 1, k requires 0 <= k < |s| - 1 => (s[0], s[k + 1])) + Combinations(s[1..])
  }

  lemma {:induction false} CombinationsMember<T>(s: seq<T>, p: (T, T))
    ensures p in Combinations(s) <==> exists i, j :: 0 <= i < j < |s| && p == (s[i], s[j])
  {
    if |s| > 0 {
      var head := seq(|s| - 1, k requires 0 <= k < |s| - 1 => (s[0], s[k + 1]));
      var tail := s[1..];
      CombinationsMember(tail, p);
      if p in Combinations(s) {
        if p in head {
          var k :| 0 <= k < |head| && head[k] == p;
          assert p == (s[0], s[k + 1]);
        } else {
          assert p in Combinations(tail);
          var i, j :| 0 <= i < j < |tail| && p == (tail[i], tail[j]);
          assert p == (s[i + 1], s[j + 1]);
        }
      }
      if exists i, j :: 0 <= i < j < |s| && p == (s[i], s[j]) {
        var i, j :| 0 <= i < j < |s| && p == (s[i], s[j]);
        if i == 0 {
          assert head[j - 1] == p;
        } else {
          assert p == (tail[i - 1], tail[j - 1]);
          assert p in Combinations(tail);
        }
      }
    }
  }

  lemma {:induction false} CombinationsDistinct(s: seq<nat>)
    requires Increasing(s)
    ensures Distinct(Combinations(s))
  {
    if |s| > 0 {
      var head := seq(|s| - 1, k requires 0 <= k < |s| - 1 => (s[0], s[k + 1]));
      var tail := s[1..];
      var c := Combinations(s);
      CombinationsDistinct(tail);
      assert c == head + Combinations(tail);
      forall i, j | 0 <= i < j < |c| ensures c[i] != c[j] {
        if j < |head| {
          assert c[i].1 == s[i + 1] && c[j].1 == s[j + 1];
        } else if i < |head| {
          var q := c[j];
          assert q in Combinations(tail);
          CombinationsMember(tail, q);
          var a, b :| 0 <= a < b < |tail| && q == (tail[a], tail[b]);
          assert q.0 == s[a + 1] > s[0] == c[i].0;
        } else {
          assert c[i] == Combinations(tail)[i - |head|];
          assert c[j] == Combinations(tail)[j - |head|];
        }
      }
    }
  }

  /** In the combinations of a strictly increasing list, `(a, b)` occurs once
      when both are in the list and `a < b`, and never otherwise. */
  lemma CombinationsCount(s: seq<nat>, a: nat, b: nat)
    requires Increasing(s)
    ensures multiset(Combinations(s))[(a, b)] == if a < b && a in s && b in s then 1 else 0
  {
    CombinationsDistinct(s);
    DistinctCount(Combinations(s), (a, b));
    CombinationsMember(s, (a, b));
    if a < b && a in s && b in s {
      var i :| 0 <= i < |s| && s[i] == a;
      var j :| 0 <= j < |s| && s[j] == b;
      assert i < j;
    }
  }

  /** The integers `lo, …, hi - 1` in order. */
  function Range(lo: nat, hi: nat): (r: seq<nat>)
    requires lo <= hi
    ensures |r| == hi - lo && forall k :: 0 <= k < |r| ==> r[k] == lo + k
  {
    seq(hi - lo, k requires 0 <= k < hi - lo => lo + k)
  }

  lemma RangeCons(lo: nat, hi: nat)
    requires lo < hi
    ensures Range(lo, hi) == [lo] + Range(lo + 1, hi)
  {
  }

  lemma CombinationsOfRange(lo: nat, hi: nat, p: (nat, nat))
    requires lo <= hi
    ensures p in Combinations(Range(lo, hi)) <==> lo <= p.0 < p.1 < hi
  {
    var s := Range(lo, hi);
    CombinationsMember(s, p);
    if lo <= p.0 < p.1 < hi {
      assert p == (s[p.0 - lo], s[p.1 - lo]);
    }
  }

  // ---------------------------------------------------------------------------
  // sorting and deduplication

  predicate SortedByKey<T>(s: seq<T>, key: T -> int) {
    forall i, j :: 0 <= i < j < |s| ==> key(s[i]) <= key(s[j])
  }

  /** Inserts `x` after every element whose key does not exceed its own. */
  function InsertByKey<T>(x: T, s: seq<T>, key: T -> int): (r: seq<T>)
    requires SortedByKey(s, key)
    ensures SortedByKey(r, key)
    ensures multiset(r) == multiset(s) + multiset{x}
    ensures |r| == |s| + 1
    ensures forall i :: 0 <= i < |r| ==> r[i] == x || r[i] in s
  {
    if |s| == 0 then [x]
    else if key(x) < key(s[0]) then [x] + s
    else
      var t := InsertByKey(x, s[1..], key);
      InsertBehind(x, s, t, key);
      [s[0]] + t
  }

  /** Putting the head back in front of the insertion into the tail keeps the order. */
  lemma InsertBehind<T>(x: T, s: seq<T>, t: seq<T>, key: T -> int)
    requires |s| > 0 && SortedByKey(s, key) && key(s[0]) <= key(x)
    requires SortedByKey(t, key) && multiset(t) == multiset(s[1..]) + multiset{x}
    requires forall i :: 0 <= i < |t| ==> t[i] == x || t[i] in s[1..]
    ensures SortedByKey([s[0]] + t, key)
    ensures multiset([s[0]] + t) == multiset(s) + multiset{x}
    ensures forall i :: 0 <= i < |t| + 1 ==> ([s[0]] + t)[i] == x || ([s[0]] + t)[i] in s
  {
    assert s == [s[0]] + s[1..];
    forall i | 0 <= i < |t| ensures key(s[0]) <= key(t[i]) {
      if t[i] != x {
        var j :| 0 <= j < |s[1..]| && s[1..][j] == t[i];
        assert s[j + 1] == t[i];
      }
    }
  }

  /** Insertion sort by an integer key: ascending, stable. */
  function SortByKey<T>(s: seq<T>, key: T -> int): (r: seq<T>)
    ensures SortedByKey(r, key)
    ensures multiset(r) == multiset(s)
    ensures |r| == |s|
  {
    if |s| == 0 then []
    else
      assert s == s[..|s| - 1] + [s[|s| - 1]];
      InsertByKey(s[|s| - 1], SortByKey(s[..|s| - 1], key), key)
  }

  predicate NonDecreasing(s: seq<nat>) {
    forall i, j :: 0 <= i < j < |s| ==> s[i] <= s[j]
  }

  /** `Vec::dedup`: drops every element equal to its predecessor. */
  function Dedup(s: seq<nat>): (r: seq<nat>)
    ensures forall x :: x in r <==> x in s
    ensures |s| > 0 ==> |r| > 0 && r[0] == s[0]
    ensures NonDecreasing(s) ==> Increasing(r)
  {
    if |s| <= 1 then s
    else if s[0] == s[1] then
      assert s[1..][0] == s[1];
      Dedup(s[1..])
    else
      assert s == [s[0]] + s[1..];
      assert NonDecreasing(s) ==> NonDecreasing(s[1..]);
      [s[0]] + Dedup(s[1..])
  }

  /** `sort()` followed by `dedup()`: the distinct elements in ascending order. */
  function SortDedup(s: seq<nat>): (r: seq<nat>)
    ensures Increasing(r)
    ensures forall x :: x in r <==> x in s
  {
    var sorted := SortByKey(s, (x: nat) => x as int);
    assert NonDecreasing(sorted);
    assert forall x :: x in sorted <==> x in multiset(sorted);
    Dedup(sorted)
  }

  /** The distinct elements of `xs` in order of first occurrence. */
  function FirstSeen<T(==)>(xs: seq<T>): (r: seq<T>)
    ensures Distinct(r)
    ensures forall i :: 0 <= i < |r| ==> r[i] in xs
    ensures forall i :: 0 <= i < |xs| ==> xs[i] in r
  {
    if |xs| == 0 then []
    else
      var init := FirstSeen(xs[..|xs| - 1]);
      assert forall i :: 0 <= i < |xs| - 1 ==> xs[i] == xs[..|xs| - 1][i];
      if xs[|xs| - 1] in init then init else init + [xs[|xs| - 1]]
  }

  /** Concatenation of a list of lists. */
  function Flatten<T>(ss: seq<seq<T>>): (r: seq<T>)
    ensures |r| == TotalSize(ss)
  {
    if |ss| == 0 then [] else Flatten(ss[..|ss| - 1]) + ss[|ss| - 1]
  }

  lemma {:induction false} FlattenMember<T>(ss: seq<seq<T>>, x: T)
    ensures x in Flatten(ss) <==> exists i :: 0 <= i < |ss| && x in ss[i]
  {
    if |ss| > 0 {
      FlattenMember(ss[..|ss| - 1], x);
      assert forall i :: 0 <= i < |ss| - 1 ==> ss[..|ss| - 1][i] == ss[i];
    }
  }

  /** `Iterator::map` collected: `f` of each element, in order. */
  function Map<A, B>(f: A -> B, xs: seq<A>): (r: seq<B>)
    ensures |r| == |xs|
  {
    if |xs| == 0 then [] else [f(xs[0])] + Map(f, xs[1..])
  }

  lemma {:induction false} MapAt<A, B>(f: A -> B, xs: seq<A>, i: nat)
    requires i < |xs|
    ensures Map(f, xs)[i] == f(xs[i])
  {
    var rest := xs[1..];
    assert Map(f, xs) == [f(xs[0])] + Map(f, rest);
    if i > 0 {
      assert xs[i] == rest[i - 1];
      MapAt(f, rest, i - 1);
    }
  }

  function Min(a: nat, b: nat): nat {
    if a <= b then a else b
  }

  /** `Iterator::zip` collected: pairs up the two lists position by position and stops at the
      end of the shorter one. */
  function Zip<A, B>(a: seq<A>, b: seq<B>): (r: seq<(A, B)>)
    ensures |r| == Min(|a|, |b|)
    ensures forall k :: 0 <= k < |r| ==> r[k] == (a[k], b[k])
  {
    if |a| == 0 || |b| == 0 then [] else [(a[0], b[0])] + Zip(a[1..], b[1..])
  }

  /** `Iterator::unzip`: the first and the second components, in order. */
  function Unzip<A, B>(ps: seq<(A, B)>): (r: (seq<A>, seq<B>))
    ensures |r.0| == |ps| && |r.1| == |ps|
    ensures forall k :: 0 <= k < |ps| ==> ps[k] == (r.0[k], r.1[k])
  {
    if |ps| == 0 then ([], [])
    else
      var rest := Unzip(ps[1..]);
      ([ps[0].0] + rest.0, [ps[0].1] + rest.1)
  }

  /** Zipping the two halves of an unzip gives back the pairs. */
  lemma ZipUnzip<A, B>(ps: seq<(A, B)>)
    ensures Zip(Unzip(ps).0, Unzip(ps).1) == ps
  {
    var u := Unzip(ps);
    assert |Zip(u.0, u.1)| == |ps|;
  }

  /** Unzipping a zip of two lists of the same length gives back the lists. */
  lemma UnzipZip<A, B>(a: seq<A>, b: seq<B>)
    requires |a| == |b|
    ensures Unzip(Zip(a, b)) == (a, b)
  {
    var u := Unzip(Zip(a, b));
    assert u.0 == a && u.1 == b;
  }

  // ---------------------------------------------------------------------------
  // nonzero entries of a matrix, row by row

  /** Lexicographic order on `(row, column)`. */
  predicate PairBefore(p: (nat, nat), q: (nat, nat)) {
    p.0 < q.0 || (p.0 == q.0 && p.1 < q.1)
  }

  /** Triples whose `(row, column)` positions strictly ascend in row-major order. */
  predicate RowMajor(ps: seq<(nat, nat, nat)>) {
    forall i, j :: 0 <= i < j < |ps| ==> PairBefore((ps[i].0, ps[i].1), (ps[j].0, ps[j].1))
  }

  /** The nonzero entries `(x, y, t(x, y))` of row `x` with `y < m`, in column order. */
  function GridRow(t: (nat, nat) -> nat, x: nat, m: nat): seq<(nat, nat, nat)> {
    if m == 0 then []
    else GridRow(t, x, m - 1) + (if t(x, m - 1) != 0 then [(x, m - 1, t(x, m - 1))] else [])
  }

  /** The nonzero entries of rows `0..k`, row `x` read up to column `width(x)`, row by row. */
  function Grid(t: (nat, nat) -> nat, k: nat, width: nat -> nat): seq<(nat, nat, nat)> {
    if k == 0 then [] else Grid(t, k - 1, width) + GridRow(t, k - 1, width(k - 1))
  }

  lemma {:induction false} GridRowMember(t: (nat, nat) -> nat, x: nat, m: nat, p: (nat, nat, nat))
    ensures p in GridRow(t, x, m) <==> p.0 == x && p.1 < m && p.2 == t(p.0, p.1) && p.2 != 0
  {
    if m > 0 {
      GridRowMember(t, x, m - 1, p);
    }
  }

  lemma {:induction false} GridRowOrdered(t: (nat, nat) -> nat, x: nat, m: nat)
    ensures RowMajor(GridRow(t, x, m))
    ensures forall i :: 0 <= i < |GridRow(t, x, m)| ==> GridRow(t, x, m)[i].0 == x
  {
    if m > 0 {
      GridRowOrdered(t, x, m - 1);
      var init := GridRow(t, x, m - 1);
      forall i | 0 <= i < |init| ensures init[i].1 < m - 1 {
        GridRowMember(t, x, m - 1, init[i]);
      }
    }
  }

  /** The listed entries are exactly the nonzero entries inside the rows and widths. */
  lemma {:induction false} GridMember(t: (nat, nat) -> nat, k: nat, width: nat -> nat, p: (nat, nat, nat))
    ensures p in Grid(t, k, width) <==> p.0 < k && p.1 < width(p.0) && p.2 == t(p.0, p.1) && p.2 != 0
  {
    if k > 0 {
      var a, b := Grid(t, k - 1, width), GridRow(t, k - 1, width(k - 1));
      assert Grid(t, k, width) == a + b;
      GridMember(t, k - 1, width, p);
      GridRowMember(t, k - 1, width(k - 1), p);
    }
  }

  /** The entries come in ascending row-major order. */
  lemma {:induction false} GridOrdered(t: (nat, nat) -> nat, k: nat, width: nat -> nat)
    ensures RowMajor(Grid(t, k, width))
  {
    if k > 0 {
      GridOrdered(t, k - 1, width);
      GridRowOrdered(t, k - 1, width(k - 1));
      var a, b := Grid(t, k - 1, width), GridRow(t, k - 1, width(k - 1));
      forall i | 0 <= i < |a| ensures a[i].0 < k - 1 {
        GridMember(t, k - 1, width, a[i]);
      }
      assert Grid(t, k, width) == a + b;
      assert forall i, j :: 0 <= i < |a| && 0 <= j < |b| ==> a[i].0 < b[j].0;
    }
  }
}
