/**
 * The JavaScript array operations the solvers share: summing with
 * `reduce((sum, a) => sum + a, 0)`, `Math.max(...xs)`, `sort` with a
 * numeric comparator, and `slice` with a possibly negative start.
 */
module Lists {

  // ---------------------------------------------------------------------
  // Sums
  // ---------------------------------------------------------------------

  /** `xs.reduce((sum, a) => sum + a, 0)`, folding from the left. */
  function Sum(xs: seq<int>): int
  {
    if |xs| == 0 then 0 else Sum(xs[..|xs| - 1]) + xs[|xs| - 1]
  }

  lemma {:induction false} SumAppend(xs: seq<int>, ys: seq<int>)
    ensures Sum(xs + ys) == Sum(xs) + Sum(ys)
    decreases |ys|
  {
    if |ys| > 0 {
      var zs := xs + ys;
      assert zs[..|zs| - 1] == xs + ys[..|ys| - 1];
      SumAppend(xs, ys[..|ys| - 1]);
    } else {
      assert xs + ys == xs;
    }
  }

  lemma SumSingle(x: int)
    ensures Sum([x]) == x
  {
    assert [x][..0] == [];
  }

  /** Changing one term changes the sum by the difference. */
  lemma SumUpdate(xs: seq<int>, i: nat, v: int)
    requires i < |xs|
    ensures Sum(xs[i := v]) == Sum(xs) - xs[i] + v
  {
    var ys := xs[i := v];
    assert xs == xs[..i] + [xs[i]] + xs[i + 1..];
    assert ys == xs[..i] + [v] + xs[i + 1..];
    SumAppend(xs[..i] + [xs[i]], xs[i + 1..]);
    SumAppend(xs[..i], [xs[i]]);
    SumAppend(xs[..i] + [v], xs[i + 1..]);
    SumAppend(xs[..i], [v]);
    SumSingle(xs[i]);
    SumSingle(v);
  }

  /** A sum does not depend on the order of its terms. */
  lemma {:induction false} SumPermutation(xs: seq<int>, ys: seq<int>)
    requires multiset(xs) == multiset(ys)
    ensures Sum(xs) == Sum(ys)
    decreases |xs|
  {
    if |xs| > 0 {
      var x := xs[|xs| - 1];
      assert x in multiset(ys);
      var k :| 0 <= k < |ys| && ys[k] == x;
      var rest := ys[..k] + ys[k + 1..];
      assert ys == ys[..k] + [x] + ys[k + 1..];
      assert multiset(ys) == multiset(ys[..k]) + multiset{x} + multiset(ys[k + 1..]);
      assert xs == xs[..|xs| - 1] + [x];
      assert multiset(xs) == multiset(xs[..|xs| - 1]) + multiset{x};
      assert multiset(rest) == multiset(ys[..k]) + multiset(ys[k + 1..]);
      assert multiset(xs[..|xs| - 1]) == multiset(xs) - multiset{x};
      assert multiset(rest) == multiset(ys) - multiset{x};
      SumPermutation(xs[..|xs| - 1], rest);
      SumAppend(ys[..k] + [x], ys[k + 1..]);
      SumAppend(ys[..k], [x]);
      SumAppend(ys[..k], ys[k + 1..]);
      SumSingle(x);
    }
  }

  /** Summing a list of non-negative numbers gives a non-negative number. */
  lemma {:induction false} SumNonNegative(xs: seq<int>)
    requires forall i :: 0 <= i < |xs| ==> xs[i] >= 0
    ensures Sum(xs) >= 0
    decreases |xs|
  {
    if |xs| > 0 {
      SumNonNegative(xs[..|xs| - 1]);
    }
  }

  /** Terms between `lo` and `hi` sum to between `lo` and `hi` times their count. */
  lemma {:induction false} SumBounds(xs: seq<int>, lo: int, hi: int)
    requires forall i :: 0 <= i < |xs| ==> lo <= xs[i] <= hi
    ensures lo * |xs| <= Sum(xs) <= hi * |xs|
    decreases |xs|
  {
    if |xs| > 0 {
      SumBounds(xs[..|xs| - 1], lo, hi);
    }
  }

  // ---------------------------------------------------------------------
  // Maximum
  // ---------------------------------------------------------------------

  /** `Math.max(...xs)` for a non-empty list: an element no smaller than any other. */
  function Max(xs: seq<int>): (m: int)
    requires |xs| >= 1
    ensures m in xs
    ensures forall i :: 0 <= i < |xs| ==> xs[i] <= m
  {
    if |xs| == 1 then xs[0]
    else
      var m := Max(xs[..|xs| - 1]);
      assert forall i :: 0 <= i < |xs| - 1 ==> xs[i] == xs[..|xs| - 1][i];
      if m < xs[|xs| - 1] then xs[|xs| - 1] else m
  }

  // ---------------------------------------------------------------------
  // Sorting
  // ---------------------------------------------------------------------

  /** `s` is in ascending order of `key`. */
  ghost predicate SortedBy<T>(s: seq<T>, key: T -> int)
  {
    forall i, j :: 0 <= i < j < |s| ==> key(s[i]) <= key(s[j])
  }

  /**
   * Places `x` in front of the first element whose key is at least its own:
   * an element that was earlier in the input stays ahead of later ones
   * with the same key, as `Array.prototype.sort` (stable) keeps them.
   */
  function Insert<T>(x: T, s: seq<T>, key: T -> int): (r: seq<T>)
    requires SortedBy(s, key)
    ensures SortedBy(r, key)
    ensures multiset(r) == multiset(s) + multiset{x}
    ensures |r| == |s| + 1
  {
    if |s| == 0 || key(x) <= key(s[0]) then [x] + s
    else
      var rest := Insert(x, s[1..], key);
      assert s == [s[0]] + s[1..];
      assert forall k :: 0 <= k < |rest| ==> key(s[0]) <= key(rest[k]) by {
        forall k | 0 <= k < |rest| ensures key(s[0]) <= key(rest[k]) {
          assert rest[k] in multiset(s[1..]) + multiset{x};
        }
      }
      [s[0]] + rest
  }

  /** `[...s].sort((a, b) => key(a) - key(b))`: an ascending permutation of `s`. */
  function SortBy<T>(s: seq<T>, key: T -> int): (r: seq<T>)
    ensures SortedBy(r, key)
    ensures multiset(r) == multiset(s)
    ensures |r| == |s|
  {
    if |s| == 0 then []
    else
      assert s == [s[0]] + s[1..];
      Insert(s[0], SortBy(s[1..], key), key)
  }

  // ---------------------------------------------------------------------
  // Slicing with a negative start
  // ---------------------------------------------------------------------

  /** Where `arr.slice(start)` begins: a negative start counts from the end, clamped to the array. */
  function SliceStart(len: nat, start: int): (r: nat)
    ensures r <= len
    ensures start < 0 ==> r == if len + start < 0 then 0 else len + start
    ensures start >= 0 ==> r == if start < len then start else len
  {
    if start < 0 then (if len + start < 0 then 0 else len + start)
    else if start < len then start else len
  }

  /**
   * `[...s].sort(ascending by key).slice(-1 * n)`: the `n` elements with the
   * largest keys for `n >= 1` (all of them when there are fewer), every
   * element for `n == 0` (`slice(-0)` is `slice(0)`), and all but the `-n`
   * smallest for negative `n`.  The result is ascending, is drawn from `s`,
   * and no element left out has a larger key than the first, smallest, one
   * kept.
   */
  function TopBy<T>(s: seq<T>, n: int, key: T -> int): (r: seq<T>)
    ensures n >= 1 ==> |r| == if n < |s| then n else |s|
    ensures n == 0 ==> |r| == |s|
    ensures n < 0 ==> |r| == if |s| + n < 0 then 0 else |s| + n
    ensures Outranks(s, r, key)
  {
    var t := SortBy(s, key);
    var k := SliceStart(|t|, -1 * n);
    TopSlice(s, t, k, key, t[k..]);
    t[k..]
  }

  /**
   * `r` is ascending, drawn from `s`, and outranks the rest: nothing left
   * out has a larger key than its first element, and nothing in `s` a
   * larger key than its last.
   */
  ghost predicate Outranks<T>(s: seq<T>, r: seq<T>, key: T -> int)
  {
    && SortedBy(r, key)
    && multiset(r) <= multiset(s)
    && (|r| > 0 ==> forall y :: y in multiset(s) - multiset(r) ==> key(y) <= key(r[0]))
    && (|r| > 0 ==> forall y :: y in s ==> key(y) <= key(r[|r| - 1]))
  }

  /** The back part of a sorted copy of `s`: ascending, drawn from `s`, and outranking the rest. */
  lemma TopSlice<T>(s: seq<T>, t: seq<T>, k: nat, key: T -> int, r: seq<T>)
    requires k <= |t| && SortedBy(t, key) && multiset(t) == multiset(s) && r == t[k..]
    ensures Outranks(s, r, key)
  {
    SortedSplit(t, k, key);
    if |r| > 0 {
      SliceFirst(s, t, k, key, r);
      SliceLast(s, t, k, key, r);
    }
  }

  /** Nothing a sorted copy leaves in front of the cut outranks the first element kept. */
  lemma SliceFirst<T>(s: seq<T>, t: seq<T>, k: nat, key: T -> int, r: seq<T>)
    requires k < |t| && SortedBy(t, key) && multiset(t) == multiset(s) && r == t[k..]
    ensures forall y :: y in multiset(s) - multiset(r) ==> key(y) <= key(r[0])
  {
    SortedSplit(t, k, key);
    assert multiset(s) - multiset(r) == multiset(t) - multiset(t[k..]);
    assert r[0] == t[k];
  }

  /** Nothing in `s` outranks the last element of its sorted copy. */
  lemma SliceLast<T>(s: seq<T>, t: seq<T>, k: nat, key: T -> int, r: seq<T>)
    requires k < |t| && SortedBy(t, key) && multiset(t) == multiset(s) && r == t[k..]
    ensures forall y :: y in s ==> key(y) <= key(r[|r| - 1])
  {
    SortedLast(s, t, key);
    assert r[|r| - 1] == t[|t| - 1];
  }

  /** The last element of a non-empty ascending list has the largest key. */
  lemma SortedLast<T>(s: seq<T>, t: seq<T>, key: T -> int)
    requires SortedBy(t, key) && multiset(t) == multiset(s)
    ensures |t| > 0 ==> forall y :: y in s ==> key(y) <= key(t[|t| - 1])
  {
    forall y | y in s ensures key(y) <= key(t[|t| - 1]) {
      assert y in multiset(t);
      var i :| 0 <= i < |t| && t[i] == y;
    }
  }

  /** Cutting an ascending list: the back part is drawn from it, and its first element outranks what is left in front. */
  lemma SortedSplit<T>(t: seq<T>, k: nat, key: T -> int)
    requires k <= |t| && SortedBy(t, key)
    ensures SortedBy(t[k..], key)
    ensures multiset(t[k..]) <= multiset(t)
    ensures multiset(t) - multiset(t[k..]) == multiset(t[..k])
    ensures k < |t| ==> forall y :: y in multiset(t) - multiset(t[k..]) ==> key(y) <= key(t[k])
  {
    var r := t[k..];
    assert t == t[..k] + r;
    assert multiset(t) == multiset(t[..k]) + multiset(r);
    forall y | y in multiset(t[..k]) && k < |t| ensures key(y) <= key(t[k]) {
      var i :| 0 <= i < k && t[i] == y;
    }
  }

  /** The keys of a list, in order. */
  function Keys<T>(s: seq<T>, key: T -> int): (ks: seq<int>)
    ensures |ks| == |s|
    ensures forall i :: 0 <= i < |s| ==> ks[i] == key(s[i])
  {
    seq(|s|, i requires 0 <= i < |s| => key(s[i]))
  }

  lemma KeysCons<T>(x: T, s: seq<T>, key: T -> int)
    ensures Keys([x] + s, key) == [key(x)] + Keys(s, key)
  {
  }

  lemma KeysTail<T>(s: seq<T>, key: T -> int)
    requires |s| > 0
    ensures Keys(s[1..], key) == Keys(s, key)[1..]
  {
  }

  /** Insertion of a key into an ascending list of keys, in front of the first one at least as large. */
  function InsertKey(k: int, ks: seq<int>): seq<int>
  {
    if |ks| == 0 || k <= ks[0] then [k] + ks else [ks[0]] + InsertKey(k, ks[1..])
  }

  /** Insertion sort on bare keys. */
  function SortKeys(ks: seq<int>): seq<int>
  {
    if |ks| == 0 then [] else InsertKey(ks[0], SortKeys(ks[1..]))
  }

  /** Where a stable insertion puts an element depends on the keys alone. */
  lemma {:induction false} InsertKeys<T>(x: T, s: seq<T>, key: T -> int)
    requires SortedBy(s, key)
    ensures Keys(Insert(x, s, key), key) == InsertKey(key(x), Keys(s, key))
    decreases |s|
  {
    if |s| == 0 || key(x) <= key(s[0]) {
      KeysCons(x, s, key);
    } else {
      InsertKeys(x, s[1..], key);
      KeysCons(s[0], Insert(x, s[1..], key), key);
      KeysTail(s, key);
    }
  }

  /** The keys of a stable sort are the sorted keys. */
  lemma {:induction false} SortByKeys<T>(s: seq<T>, key: T -> int)
    ensures Keys(SortBy(s, key), key) == SortKeys(Keys(s, key))
  {
    if |s| > 0 {
      SortByKeys(s[1..], key);
      InsertKeys(s[0], SortBy(s[1..], key), key);
      KeysTail(s, key);
    }
  }

  /** Lists with the same keys have suffixes with the same keys. */
  lemma KeysSuffix<T>(a: seq<T>, b: seq<T>, k: nat, key: T -> int)
    requires Keys(a, key) == Keys(b, key) && k <= |a|
    ensures Keys(a[k..], key) == Keys(b[k..], key)
  {
    forall i | 0 <= i < |a| - k ensures key(a[k..][i]) == key(b[k..][i]) {
      assert Keys(a, key)[k + i] == Keys(b, key)[k + i];
    }
  }

  /** Two lists with the same keys have top parts with the same keys. */
  lemma TopByKeys<T>(s: seq<T>, t: seq<T>, n: int, key: T -> int)
    requires Keys(s, key) == Keys(t, key)
    ensures Keys(TopBy(s, n, key), key) == Keys(TopBy(t, n, key), key)
  {
    var a, b := SortBy(s, key), SortBy(t, key);
    SortByKeys(s, key);
    SortByKeys(t, key);
    KeysSuffix(a, b, SliceStart(|a|, -1 * n), key);
  }

  /** No element occurs twice. */
  predicate NoDuplicates<T(==)>(s: seq<T>)
  {
    forall k, l :: 0 <= k < l < |s| ==> s[k] != s[l]
  }

  lemma InAt<T>(s: seq<T>, i: nat)
    requires i < |s|
    ensures s[i] in s
  {
  }

  /** Removing the element at `i` from a list without duplicates removes exactly that value. */
  lemma RemoveAt<T>(s: seq<T>, i: nat)
    requires i < |s| && NoDuplicates(s)
    ensures NoDuplicates(s[..i] + s[i + 1..])
    ensures forall x :: x in s[..i] + s[i + 1..] <==> x in s && x != s[i]
  {
    var rest := s[..i] + s[i + 1..];
    forall k, l | 0 <= k < l < |rest| ensures rest[k] != rest[l] {
      var k', l' := if k < i then k else k + 1, if l < i then l else l + 1;
      assert rest[k] == s[k'] && rest[l] == s[l'];
    }
    forall x ensures x in rest <==> x in s && x != s[i] {
      if x in rest {
        var k :| 0 <= k < |rest| && rest[k] == x;
        assert x == if k < i then s[k] else s[k + 1];
      }
    }
  }

  // ---------------------------------------------------------------------
  // Filtering
  // ---------------------------------------------------------------------

  /** `s.filter(p)`: the elements satisfying `p`, in their original order. */
  function Filter<T>(s: seq<T>, p: T -> bool): (r: seq<T>)
    ensures |r| <= |s|
    ensures forall x :: x in r ==> x in s && p(x)
    ensures forall x :: x in s && p(x) ==> x in r
  {
    if |s| == 0 then []
    else (if p(s[0]) then [s[0]] else []) + Filter(s[1..], p)
  }

  /** Filtering works piece by piece, so the kept elements stay in their original order. */
  lemma {:induction false} FilterAppend<T>(s: seq<T>, t: seq<T>, p: T -> bool)
    ensures Filter(s + t, p) == Filter(s, p) + Filter(t, p)
    decreases |s|
  {
    if |s| == 0 {
      assert s + t == t;
    } else {
      assert (s + t)[1..] == s[1..] + t;
      FilterAppend(s[1..], t, p);
    }
  }

  /** Filtering a one-element list keeps it exactly when it passes. */
  lemma FilterSingle<T>(x: T, p: T -> bool)
    ensures Filter([x], p) == if p(x) then [x] else []
  {
    assert [x][1..] == [];
  }

  /** The positions of `s` whose element passes `p`. */
  ghost function Indices<T>(s: seq<T>, p: T -> bool): set<int>
  {
    set i | 0 <= i < |s| && p(s[i])
  }

  /** The passing positions of `s` are those of all but its last element, and the last one if it passes. */
  lemma IndicesSplit<T>(s: seq<T>, p: T -> bool)
    requires |s| > 0
    ensures Indices(s, p) == Indices(s[..|s| - 1], p) + (if p(s[|s| - 1]) then {|s| - 1} else {})
    ensures |s| - 1 !in Indices(s[..|s| - 1], p)
  {
    var n := |s| - 1;
    var front := s[..n];
    forall i ensures i in Indices(s, p) <==> i in Indices(front, p) + (if p(s[n]) then {n} else {}) {
      if 0 <= i < n {
        assert s[i] == front[i];
      }
    }
  }

  /** The filtered list has one element per passing position. */
  lemma {:induction false} FilterCount<T>(s: seq<T>, p: T -> bool)
    ensures |Filter(s, p)| == |Indices(s, p)|
    decreases |s|
  {
    if |s| == 0 {
      assert Indices(s, p) == {};
    } else {
      var n := |s| - 1;
      var front := s[..n];
      FilterCount(front, p);
      assert s == front + [s[n]];
      FilterAppend(front, [s[n]], p);
      FilterSingle(s[n], p);
      IndicesSplit(s, p);
    }
  }

  /** Filtering by `p` and then by a stronger `q` is filtering by `q` alone. */
  lemma {:induction false} FilterFilter<T>(s: seq<T>, p: T -> bool, q: T -> bool)
    requires forall i :: 0 <= i < |s| ==> q(s[i]) ==> p(s[i])
    ensures Filter(Filter(s, p), q) == Filter(s, q)
    decreases |s|
  {
    if |s| > 0 {
      FilterFilter(s[1..], p, q);
      var head := if p(s[0]) then [s[0]] else [];
      FilterAppend(head, Filter(s[1..], p), q);
      if p(s[0]) {
        assert Filter(head, q) == (if q(s[0]) then [s[0]] else []) + Filter([], q);
      }
    }
  }

  /** A stronger condition keeps no more elements. */
  lemma {:induction false} FilterStronger<T>(s: seq<T>, p: T -> bool, q: T -> bool)
    requires forall i :: 0 <= i < |s| ==> q(s[i]) ==> p(s[i])
    ensures |Filter(s, q)| <= |Filter(s, p)|
    decreases |s|
  {
    if |s| > 0 {
      FilterStronger(s[1..], p, q);
    }
  }

  // ---------------------------------------------------------------------
  // Flattening
  // ---------------------------------------------------------------------

  /** The concatenation of all the pieces, in order. */
  function Flatten<T>(pieces: seq<seq<T>>): seq<T>
  {
    if |pieces| == 0 then [] else Flatten(pieces[..|pieces| - 1]) + pieces[|pieces| - 1]
  }

  lemma {:induction false} FlattenAppend<T>(a: seq<seq<T>>, b: seq<seq<T>>)
    ensures Flatten(a + b) == Flatten(a) + Flatten(b)
    decreases |b|
  {
    if |b| == 0 {
      assert a + b == a;
    } else {
      var ab := a + b;
      assert ab[..|ab| - 1] == a + b[..|b| - 1];
      FlattenAppend(a, b[..|b| - 1]);
    }
  }

  lemma FlattenSingle<T>(x: seq<T>)
    ensures Flatten([x]) == x
  {
    assert [x][..0] == [];
  }

  /** Piece `i` sits between the pieces before it and the pieces after it. */
  lemma FlattenAround<T>(pieces: seq<seq<T>>, i: nat)
    requires i < |pieces|
    ensures Flatten(pieces) == Flatten(pieces[..i]) + pieces[i] + Flatten(pieces[i + 1..])
  {
    var before, after := pieces[..i], pieces[i + 1..];
    var rest := pieces[i..];
    assert pieces == before + rest;
    assert rest == [pieces[i]] + after;
    FlattenAppend(before, rest);
    FlattenCons(pieces[i], after);
    SeqAssociative(Flatten(before), pieces[i], Flatten(after));
  }

  lemma SeqAssociative<T>(a: seq<T>, b: seq<T>, c: seq<T>)
    ensures a + (b + c) == a + b + c
  {
  }

  lemma FlattenCons<T>(x: seq<T>, after: seq<seq<T>>)
    ensures Flatten([x] + after) == x + Flatten(after)
  {
    FlattenAppend([x], after);
    FlattenSingle(x);
  }
}
