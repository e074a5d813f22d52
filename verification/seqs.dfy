/** Sequence operations behind the source's `filter`, `Set` insertion and
    `sort` calls. */
module Seqs {
  import opened Wrappers
  import opened Text

  /** `Array.prototype.filter`: the elements that satisfy `p`, in order. */
  function Filter<T>(s: seq<T>, p: T -> bool): (r: seq<T>)
    ensures |r| <= |s|
  {
    if |s| == 0 then []
    else Filter(s[..|s| - 1], p) + (if p(s[|s| - 1]) then [s[|s| - 1]] else [])
  }

  /** The filter keeps exactly the elements that pass. */
  lemma {:induction false} FilterMembers<T>(s: seq<T>, p: T -> bool, x: T)
    ensures x in Filter(s, p) <==> x in s && p(x)
  {
    if |s| > 0 {
      FilterMembers(s[..|s| - 1], p, x);
      assert s == s[..|s| - 1] + [s[|s| - 1]];
    }
  }

  /** Filtering distributes over concatenation, so it keeps relative order. */
  lemma {:induction false} FilterAppend<T>(s: seq<T>, t: seq<T>, p: T -> bool)
    ensures Filter(s + t, p) == Filter(s, p) + Filter(t, p)
  {
    if |t| == 0 {
      assert s + t == s;
    } else {
      assert (s + t)[..|s + t| - 1] == s + t[..|t| - 1];
      FilterAppend(s, t[..|t| - 1], p);
    }
  }

  /** A filter that every element passes returns the whole sequence. */
  lemma {:induction false} FilterKeepsAll<T>(s: seq<T>, p: T -> bool)
    requires forall k :: 0 <= k < |s| ==> p(s[k])
    ensures Filter(s, p) == s
  {
    if |s| > 0 {
      FilterKeepsAll(s[..|s| - 1], p);
      assert s == s[..|s| - 1] + [s[|s| - 1]];
    }
  }

  /** `Array.prototype.find` / `findIndex`: the index of the first element
      that satisfies `p`, if any. */
  function Find<T>(s: seq<T>, p: T -> bool): (r: Option<nat>)
    ensures r.Some? ==> r.value < |s| && p(s[r.value])
    ensures r.Some? ==> forall j :: 0 <= j < r.value ==> !p(s[j])
    ensures r.None? <==> forall j :: 0 <= j < |s| ==> !p(s[j])
  {
    if |s| == 0 then None
    else if p(s[0]) then Some(0)
    else
      match Find(s[1..], p)
      case Some(k) =>
        assert forall j :: 1 <= j <= k ==> s[j] == s[1..][j - 1];
        Some(k + 1)
      case None =>
        assert forall j :: 1 <= j < |s| ==> s[j] == s[1..][j - 1];
        None
  }

  /** Whatever `p` holds of, the first such element is the one found. */
  lemma FindFirst<T>(s: seq<T>, p: T -> bool, i: nat)
    requires i < |s| && p(s[i]) && forall j :: 0 <= j < i ==> !p(s[j])
    ensures Find(s, p) == Some(i)
  {
  }

  predicate NoDup<T(==)>(s: seq<T>) {
    forall i, j :: 0 <= i < j < |s| ==> s[i] != s[j]
  }

  /** The elements of `s` in order of first occurrence: what
      `Array.from(new Set(s))` and an `includes`-guarded `push` build. */
  function Distinct<T(==, !new)>(s: seq<T>): (r: seq<T>)
    ensures NoDup(r)
    ensures forall x :: x in r <==> x in s
  {
    if |s| == 0 then []
    else
      var d := Distinct(s[..|s| - 1]);
      if s[|s| - 1] in d then d else d + [s[|s| - 1]]
  }

  /** The first distinct element is the first element. */
  lemma {:induction false} DistinctFirst<T(!new)>(s: seq<T>)
    requires |s| > 0
    ensures |Distinct(s)| > 0 && Distinct(s)[0] == s[0]
  {
    if |s| > 1 {
      DistinctFirst(s[..|s| - 1]);
    }
  }

  /** `a` may stand before `b` in a list sorted by string keys, ascending or
      descending. */
  predicate InOrder(a: string, b: string, descending: bool) {
    if descending then !Less(a, b) else !Less(b, a)
  }

  lemma InOrderReflexive(a: string, descending: bool)
    ensures InOrder(a, a, descending)
  {
    LessIrreflexive(a);
  }

  lemma InOrderTotal(a: string, b: string, descending: bool)
    ensures InOrder(a, b, descending) || InOrder(b, a, descending)
  {
    if Less(a, b) {
      LessAsymmetric(a, b);
    }
  }

  lemma InOrderTransitive(a: string, b: string, c: string, descending: bool)
    requires InOrder(a, b, descending) && InOrder(b, c, descending)
    ensures InOrder(a, c, descending)
  {
    if descending && Less(a, c) {
      if a != b {
        LessTotal(a, b);
        LessTransitive(b, a, c);
      }
    } else if !descending && Less(c, a) {
      if a != b {
        LessTotal(a, b);
        LessTransitive(c, a, b);
      }
    }
  }

  /** Inserts `x` before the first element it may precede, so that `x` comes
      before the elements with an equal key. */
  function InsertBy<T>(x: T, s: seq<T>, key: T -> string, descending: bool): seq<T> {
    if |s| == 0 then [x]
    else if InOrder(key(x), key(s[0]), descending) then [x] + s
    else [s[0]] + InsertBy(x, s[1..], key, descending)
  }

  /** The stable sort of `Array.prototype.sort` with a comparator that
      compares `key` values (ordinal order). */
  function SortBy<T>(s: seq<T>, key: T -> string, descending: bool): seq<T> {
    if |s| == 0 then [] else InsertBy(s[0], SortBy(s[1..], key, descending), key, descending)
  }

  predicate SortedBy<T>(s: seq<T>, key: T -> string, descending: bool) {
    forall i, j :: 0 <= i < j < |s| ==> InOrder(key(s[i]), key(s[j]), descending)
  }

  /** The test "has key `k`". */
  function KeyIs<T>(key: T -> string, k: string): T -> bool {
    (x: T) => key(x) == k
  }

  /** The elements of `s` whose key is `k`. */
  function WithKey<T>(s: seq<T>, key: T -> string, k: string): seq<T> {
    Filter(s, KeyIs(key, k))
  }

  lemma {:induction false} InsertByPermutes<T>(x: T, s: seq<T>, key: T -> string, descending: bool)
    ensures multiset(InsertBy(x, s, key, descending)) == multiset(s) + multiset{x}
  {
    if |s| > 0 && !InOrder(key(x), key(s[0]), descending) {
      InsertByPermutes(x, s[1..], key, descending);
      assert s == [s[0]] + s[1..];
    }
  }

  /** Sorting permutes its input. */
  lemma {:induction false} SortByPermutes<T>(s: seq<T>, key: T -> string, descending: bool)
    ensures multiset(SortBy(s, key, descending)) == multiset(s)
  {
    if |s| > 0 {
      SortByPermutes(s[1..], key, descending);
      InsertByPermutes(s[0], SortBy(s[1..], key, descending), key, descending);
      assert s == [s[0]] + s[1..];
    }
  }

  lemma {:induction false} InsertBySorted<T>(x: T, s: seq<T>, key: T -> string, descending: bool)
    requires SortedBy(s, key, descending)
    ensures SortedBy(InsertBy(x, s, key, descending), key, descending)
  {
    var r := InsertBy(x, s, key, descending);
    if |s| == 0 {
    } else if InOrder(key(x), key(s[0]), descending) {
      forall j | 0 < j < |r| ensures InOrder(key(r[0]), key(r[j]), descending) {
        if j == 1 {
          InOrderReflexive(key(s[0]), descending);
        }
        InOrderTransitive(key(x), key(s[0]), key(r[j]), descending);
      }
    } else {
      InOrderTotal(key(x), key(s[0]), descending);
      var t := InsertBy(x, s[1..], key, descending);
      InsertBySorted(x, s[1..], key, descending);
      InsertByPermutes(x, s[1..], key, descending);
      forall j | 0 <= j < |t| ensures InOrder(key(s[0]), key(t[j]), descending) {
        assert t[j] in multiset(t);
        if t[j] != x {
          assert t[j] in s[1..];
        }
      }
    }
  }

  /** Sorting sorts. */
  lemma {:induction false} SortBySorted<T>(s: seq<T>, key: T -> string, descending: bool)
    ensures SortedBy(SortBy(s, key, descending), key, descending)
  {
    if |s| > 0 {
      SortBySorted(s[1..], key, descending);
      InsertBySorted(s[0], SortBy(s[1..], key, descending), key, descending);
    }
  }

  lemma FilterSingle<T>(y: T, p: T -> bool)
    ensures Filter([y], p) == if p(y) then [y] else []
  {
    assert [y][..0] == [];
  }

  /** Two elements that the sort keeps apart never share the key `k`, so
      their filtered singletons commute. */
  lemma SwapApart<T>(x: T, y: T, key: T -> string, descending: bool, k: string)
    requires !InOrder(key(x), key(y), descending)
    ensures Filter([y], KeyIs(key, k)) + Filter([x], KeyIs(key, k))
         == Filter([x], KeyIs(key, k)) + Filter([y], KeyIs(key, k))
  {
    InOrderReflexive(key(x), descending);
    FilterSingle(x, KeyIs(key, k));
    FilterSingle(y, KeyIs(key, k));
  }

  lemma {:induction false} InsertByStable<T>(x: T, s: seq<T>, key: T -> string, descending: bool, k: string)
    ensures WithKey(InsertBy(x, s, key, descending), key, k) == WithKey([x] + s, key, k)
  {
    if |s| > 0 && !InOrder(key(x), key(s[0]), descending) {
      var p := KeyIs(key, k);
      var y, t := s[0], s[1..];
      var fx, fy, ft := Filter([x], p), Filter([y], p), Filter(t, p);
      InsertByStable(x, t, key, descending, k);
      assert InsertBy(x, s, key, descending) == [y] + InsertBy(x, t, key, descending);
      FilterAppend([y], InsertBy(x, t, key, descending), p);
      FilterAppend([x], t, p);
      assert WithKey(InsertBy(x, s, key, descending), key, k) == fy + (fx + ft);
      assert [x] + s == [x] + [y] + t;
      FilterAppend([x] + [y], t, p);
      FilterAppend([x], [y], p);
      assert WithKey([x] + s, key, k) == (fx + fy) + ft;
      SwapApart(x, y, key, descending, k);
      assert fy + (fx + ft) == (fy + fx) + ft;
    }
  }

  /** Sorting is stable: the elements with any one key keep their input
      order. Together with SortBySorted and SortByPermutes this determines
      the result of every stable sort. */
  lemma {:induction false} SortByStable<T>(s: seq<T>, key: T -> string, descending: bool, k: string)
    ensures WithKey(SortBy(s, key, descending), key, k) == WithKey(s, key, k)
  {
    if |s| > 0 {
      var p := KeyIs(key, k);
      SortByStable(s[1..], key, descending, k);
      InsertByStable(s[0], SortBy(s[1..], key, descending), key, descending, k);
      FilterAppend([s[0]], SortBy(s[1..], key, descending), p);
      FilterAppend([s[0]], s[1..], p);
      assert [s[0]] + s[1..] == s;
    }
  }

  /** Sorting a list without duplicates yields a list without duplicates. */
  lemma SortByNoDup<T>(s: seq<T>, key: T -> string, descending: bool)
    requires NoDup(s)
    ensures NoDup(SortBy(s, key, descending))
  {
    var r := SortBy(s, key, descending);
    SortByPermutes(s, key, descending);
    forall i, j | 0 <= i < j < |r| ensures r[i] != r[j] {
      if r[i] == r[j] {
        assert multiset(r[..j])[r[i]] >= 1 by { assert r[i] in r[..j]; }
        assert r == r[..j] + [r[j]] + r[j + 1..];
        assert multiset(r)[r[i]] >= 2;
        MultiplicityOne(s, r[i]);
        assert false;
      }
    }
  }

  lemma {:induction false} MultiplicityOne<T>(s: seq<T>, x: T)
    requires NoDup(s)
    ensures multiset(s)[x] <= 1
  {
    if |s| > 0 {
      MultiplicityOne(s[1..], x);
      assert s == [s[0]] + s[1..];
      assert s[0] == x ==> x !in s[1..];
    }
  }

  /** The identity key, for sorting strings themselves. */
  function Self(s: string): string {
    s
  }

  /** Sorting distinct strings gives a strictly ordered list of the same
      strings. */
  lemma SortStrings(s: seq<string>, descending: bool)
    requires NoDup(s)
    ensures var r := SortBy(s, Self, descending);
      && NoDup(r)
      && (forall x :: x in r <==> x in s)
      && (forall i, j :: 0 <= i < j < |r| ==> if descending then Less(r[j], r[i]) else Less(r[i], r[j]))
  {
    var r := SortBy(s, Self, descending);
    SortByPermutes(s, Self, descending);
    SortBySorted(s, Self, descending);
    SortByNoDup(s, Self, descending);
    assert forall x :: x in r <==> x in multiset(s);
    forall i, j | 0 <= i < j < |r|
      ensures if descending then Less(r[j], r[i]) else Less(r[i], r[j])
    {
      assert InOrder(r[i], r[j], descending);
      LessTotal(r[i], r[j]);
    }
  }
}
