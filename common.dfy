/** Generic sequence helpers shared by the model: an optional value, the
    document store's `findOne` (first match in storage order), counting,
    `Array.prototype.filter`, a stable sort by an integer key (the ordering
    `Array.prototype.sort` gives with a key-difference comparator) and
    `slice(0, n)`. */
module Common {

  datatype Option<T> = None | Some(value: T)

  /** Index of the first element satisfying `p`. */
  function FindFirst<T>(s: seq<T>, p: T -> bool): (r: Option<nat>)
    ensures r.Some? ==> r.value < |s| && p(s[r.value])
    ensures r.Some? ==> forall j :: 0 <= j < r.value ==> !p(s[j])
    ensures r.None? ==> forall j :: 0 <= j < |s| ==> !p(s[j])
  {
    if |s| == 0 then None
    else if p(s[0]) then Some(0)
    else match FindFirst(s[1..], p)
      case None => None
      case Some(k) => Some(k + 1)
  }

  /** Any index that meets the characterisation of the first match is the one
      `FindFirst` returns. */
  lemma FindFirstIs<T>(s: seq<T>, p: T -> bool, r: Option<nat>)
    requires r.Some? ==> r.value < |s| && p(s[r.value]) && forall j :: 0 <= j < r.value ==> !p(s[j])
    requires r.None? ==> forall j :: 0 <= j < |s| ==> !p(s[j])
    ensures FindFirst(s, p) == r
  {
  }

  /** Replacing an element by one that `p` judges the same way does not move
      the first match. */
  lemma FindFirstUpdate<T>(s: seq<T>, p: T -> bool, k: nat, x: T)
    requires k < |s| && p(x) == p(s[k])
    ensures FindFirst(s[k := x], p) == FindFirst(s, p)
  {
    var t := s[k := x];
    assert forall j :: 0 <= j < |s| ==> p(t[j]) == p(s[j]);
    FindFirstIs(t, p, FindFirst(s, p));
  }

  /** Appending an element: the first match stays where it was, or is the new
      element when there was none and the new element matches. */
  lemma FindFirstAppend<T>(s: seq<T>, p: T -> bool, x: T)
    ensures FindFirst(s + [x], p) ==
      match FindFirst(s, p)
      case Some(k) => Some(k)
      case None => if p(x) then Some(|s|) else None
  {
    var t := s + [x];
    assert forall j :: 0 <= j < |s| ==> t[j] == s[j];
    var f := FindFirst(s, p);
    if f.Some? {
      FindFirstIs(t, p, f);
    } else {
      FindFirstIs(t, p, if p(x) then Some(|s|) else None);
    }
  }

  /** Number of elements satisfying `p`. */
  function Count<T>(s: seq<T>, p: T -> bool): (n: nat)
    ensures n <= |s|
    ensures n == 0 <==> forall j :: 0 <= j < |s| ==> !p(s[j])
  {
    if |s| == 0 then 0
    else (if p(s[0]) then 1 else 0) + Count(s[1..], p)
  }

  lemma {:induction false} CountAppend<T>(s: seq<T>, p: T -> bool, x: T)
    ensures Count(s + [x], p) == Count(s, p) + (if p(x) then 1 else 0)
  {
    if |s| == 0 {
      assert s + [x] == [x];
    } else {
      assert (s + [x])[1..] == s[1..] + [x];
      CountAppend(s[1..], p, x);
    }
  }

  /** Counting a non-empty sequence: its front, then its last element. */
  lemma CountLast<T>(s: seq<T>, p: T -> bool)
    requires |s| > 0
    ensures Count(s, p) == Count(s[..|s| - 1], p) + (if p(s[|s| - 1]) then 1 else 0)
  {
    var init, last := s[..|s| - 1], s[|s| - 1];
    var t := init + [last];
    assert t == s;
    CountAppend(init, p, last);
  }

  lemma {:induction false} CountUpdate<T>(s: seq<T>, p: T -> bool, k: nat, x: T)
    requires k < |s| && p(x) == p(s[k])
    ensures Count(s[k := x], p) == Count(s, p)
  {
    if k > 0 {
      assert s[k := x][1..] == s[1..][k - 1 := x];
      CountUpdate(s[1..], p, k - 1, x);
    } else {
      assert s[k := x][1..] == s[1..];
    }
  }

  /** `s.filter(p)`: the elements satisfying `p`, in their original order. */
  function Filter<T>(s: seq<T>, p: T -> bool): (r: seq<T>)
    ensures |r| == Count(s, p)
    ensures forall i :: 0 <= i < |r| ==> p(r[i]) && r[i] in s
    ensures forall i :: 0 <= i < |s| && p(s[i]) ==> s[i] in r
    ensures multiset(r) <= multiset(s)
  {
    if |s| == 0 then []
    else
      assert s == [s[0]] + s[1..];
      if p(s[0]) then [s[0]] + Filter(s[1..], p)
      else Filter(s[1..], p)
  }

  /** `s.map(f)`. */
  function Map<A, B>(s: seq<A>, f: A -> B): (r: seq<B>)
    ensures |r| == |s|
    ensures forall i :: 0 <= i < |s| ==> r[i] == f(s[i])
  {
    if |s| == 0 then [] else [f(s[0])] + Map(s[1..], f)
  }

  /** `x` is the image under `f` of some element of `s` that satisfies `p`. */
  ghost predicate From<A, B>(x: B, s: seq<A>, p: A -> bool, f: A -> B)
  {
    exists j :: 0 <= j < |s| && p(s[j]) && x == f(s[j])
  }

  /** `s.filter(p).map(f)`: the image of every element that satisfies `p`,
      and nothing else. */
  function MapFilter<A, B>(s: seq<A>, p: A -> bool, f: A -> B): (r: seq<B>)
    ensures forall i :: 0 <= i < |r| ==> From(r[i], s, p, f)
    ensures forall j :: 0 <= j < |s| && p(s[j]) ==> f(s[j]) in r
  {
    if |s| == 0 then []
    else
      var rest := MapFilter(s[1..], p, f);
      var head := if p(s[0]) then [f(s[0])] else [];
      var r := head + rest;
      forall i | 0 <= i < |r|
        ensures From(r[i], s, p, f)
      {
        if i >= |head| {
          assert r[i] == rest[i - |head|];
          assert From(rest[i - |head|], s[1..], p, f);
          var j :| 0 <= j < |s| - 1 && p(s[1..][j]) && rest[i - |head|] == f(s[1..][j]);
          assert s[j + 1] == s[1..][j];
        }
      }
      forall j | 0 <= j < |s| && p(s[j])
        ensures f(s[j]) in r
      {
        if j > 0 {
          assert s[j] == s[1..][j - 1];
        }
      }
      r
  }

  lemma {:induction false} MapFilterCount<A, B>(s: seq<A>, p: A -> bool, f: A -> B)
    ensures |MapFilter(s, p, f)| == Count(s, p)
  {
    if |s| > 0 {
      MapFilterCount(s[1..], p, f);
    }
  }

  /** `MapFilter` is the map of the filter: one image per element that
      satisfies `p`, in the original order. */
  lemma {:induction false} MapFilterIsMapOfFilter<A, B>(s: seq<A>, p: A -> bool, f: A -> B)
    ensures MapFilter(s, p, f) == Map(Filter(s, p), f)
  {
    if |s| > 0 {
      MapFilterIsMapOfFilter(s[1..], p, f);
      var rest := Filter(s[1..], p);
      if p(s[0]) {
        assert ([s[0]] + rest)[1..] == rest;
      }
    }
  }

  /** A prefix holds no more of any element than the whole. */
  lemma PrefixMultiset<T>(r: seq<T>, s: seq<T>)
    requires r <= s
    ensures multiset(r) <= multiset(s)
  {
    assert s == r + s[|r|..];
  }

  /** Reordering keeps both halves of the `MapFilter` characterisation. */
  lemma ReorderKeepsFrom<A, B>(l: seq<B>, r: seq<B>, s: seq<A>, p: A -> bool, f: A -> B)
    requires multiset(r) == multiset(l)
    requires forall i :: 0 <= i < |l| ==> From(l[i], s, p, f)
    requires forall j :: 0 <= j < |s| && p(s[j]) ==> f(s[j]) in l
    ensures forall i :: 0 <= i < |r| ==> From(r[i], s, p, f)
    ensures forall j :: 0 <= j < |s| && p(s[j]) ==> f(s[j]) in r
  {
    forall i | 0 <= i < |r|
      ensures From(r[i], s, p, f)
    {
      assert r[i] in multiset(r);
      var m :| 0 <= m < |l| && l[m] == r[i];
    }
    forall j | 0 <= j < |s| && p(s[j])
      ensures f(s[j]) in r
    {
      assert f(s[j]) in multiset(l);
    }
  }

  /** The first `n` of a sorted sequence are its `n` smallest: an element
      left out comes after a full prefix whose last key is not larger. */
  lemma TakeOfSorted<T>(s: seq<T>, key: T -> int, n: nat, x: T)
    requires SortedBy(s, key) && x in s && n > 0
    ensures x in Take(s, n) || (|Take(s, n)| == n && key(Take(s, n)[n - 1]) <= key(x))
  {
    var m :| 0 <= m < |s| && s[m] == x;
    if m < n {
      assert Take(s, n)[m] == x;
    }
  }

  /** `s.filter(p).map(f).sort(by key)`: exactly the images of the elements
      that satisfy `p`, one per element, in key order. */
  lemma SortedImages<A, B>(s: seq<A>, p: A -> bool, f: A -> B, key: B -> int)
    ensures var r := SortBy(MapFilter(s, p, f), key);
      && |r| == Count(s, p)
      && (forall i :: 0 <= i < |r| ==> From(r[i], s, p, f))
      && (forall j :: 0 <= j < |s| && p(s[j]) ==> f(s[j]) in r)
      && SortedBy(r, key)
  {
    var l := MapFilter(s, p, f);
    MapFilterCount(s, p, f);
    ReorderKeepsFrom(l, SortBy(l, key), s, p, f);
  }

  /** `s.filter(p).map(f).sort(by key).slice(0, n)`: `n` images of elements
      that satisfy `p` (all of them when fewer do), in key order, and every
      image left out has a key no smaller than the last one kept. */
  lemma TopN<A, B>(s: seq<A>, p: A -> bool, f: A -> B, key: B -> int, n: nat)
    requires n > 0
    ensures var r := Take(SortBy(MapFilter(s, p, f), key), n);
      && |r| == (if Count(s, p) < n then Count(s, p) else n)
      && (forall i :: 0 <= i < |r| ==> From(r[i], s, p, f))
      && SortedBy(r, key)
      && forall j :: 0 <= j < |s| && p(s[j]) ==> f(s[j]) in r || (|r| == n && key(r[n - 1]) <= key(f(s[j])))
  {
    var l := MapFilter(s, p, f);
    var sorted := SortBy(l, key);
    MapFilterCount(s, p, f);
    ReorderKeepsFrom(l, sorted, s, p, f);
    var r := Take(sorted, n);
    assert forall i :: 0 <= i < |r| ==> r[i] == sorted[i];
    forall j | 0 <= j < |s| && p(s[j])
      ensures f(s[j]) in r || (|r| == n && key(r[n - 1]) <= key(f(s[j])))
    {
      TakeOfSorted(sorted, key, n, f(s[j]));
    }
  }

  /** The top `n` images hold each image at most as often as the elements
      that satisfy `p` give it: one per element, none repeated beyond that. */
  lemma TopNOnce<A, B>(s: seq<A>, p: A -> bool, f: A -> B, key: B -> int, n: nat)
    ensures multiset(Take(SortBy(MapFilter(s, p, f), key), n)) <= multiset(Map(Filter(s, p), f))
  {
    var sorted := SortBy(MapFilter(s, p, f), key);
    MapFilterIsMapOfFilter(s, p, f);
    PrefixMultiset(Take(sorted, n), sorted);
  }

  /** A prefix of a prefix is a prefix. */
  lemma PrefixOfPrefix<T>(s: seq<T>, n: nat, m: nat)
    requires m <= n <= |s|
    ensures s[..n][..m] == s[..m]
  {
  }

  /** `s.slice(0, n)`. */
  function Take<T>(s: seq<T>, n: nat): (r: seq<T>)
    ensures |r| == if n < |s| then n else |s|
    ensures r <= s
  {
    if n < |s| then s[..n] else s
  }

  /** The image of an element that passes the filter is among the images of
      the first `n` that do, unless `n` of them are taken already. */
  lemma TakeFilterShown<A, B>(s: seq<A>, p: A -> bool, f: A -> B, n: nat, j: nat)
    requires j < |s| && p(s[j])
    ensures f(s[j]) in Map(Take(Filter(s, p), n), f) || |Take(Filter(s, p), n)| == n
  {
    var t := Take(Filter(s, p), n);
    if |t| != n {
      assert s[j] in t;
      var q :| 0 <= q < |t| && t[q] == s[j];
      assert Map(t, f)[q] == f(s[j]);
    }
  }

  /** Indexing into a concatenation. */
  lemma ConcatIndex<T>(a: seq<T>, b: seq<T>)
    ensures forall i :: 0 <= i < |a| ==> (a + b)[i] == a[i]
    ensures forall i :: |a| <= i < |a| + |b| ==> (a + b)[i] == b[i - |a|]
  {
  }

  ghost predicate SortedBy<T>(s: seq<T>, key: T -> int)
  {
    forall i, j :: 0 <= i < j < |s| ==> key(s[i]) <= key(s[j])
  }

  /** Inserts `x` in front of the first element whose key is not smaller. */
  function Insert<T>(x: T, s: seq<T>, key: T -> int): (r: seq<T>)
    requires SortedBy(s, key)
    ensures SortedBy(r, key)
    ensures multiset(r) == multiset(s) + multiset{x}
    ensures |r| == |s| + 1
    ensures forall i :: 0 <= i < |r| ==> r[i] == x || r[i] in s
  {
    if |s| == 0 then [x]
    else if key(x) <= key(s[0]) then [x] + s
    else
      var rest := Insert(x, s[1..], key);
      InsertBehind(x, s, rest, key);
      [s[0]] + rest
  }

  /** The step of `Insert` that keeps the head in front. */
  lemma InsertBehind<T>(x: T, s: seq<T>, rest: seq<T>, key: T -> int)
    requires SortedBy(s, key) && |s| > 0 && key(s[0]) < key(x)
    requires SortedBy(rest, key)
    requires multiset(rest) == multiset(s[1..]) + multiset{x}
    requires forall i :: 0 <= i < |rest| ==> rest[i] == x || rest[i] in s[1..]
    ensures SortedBy([s[0]] + rest, key)
    ensures multiset([s[0]] + rest) == multiset(s) + multiset{x}
    ensures forall i :: 0 <= i < |[s[0]] + rest| ==> ([s[0]] + rest)[i] == x || ([s[0]] + rest)[i] in s
  {
    var r := [s[0]] + rest;
    forall i | 0 <= i < |rest|
      ensures key(s[0]) <= key(rest[i]) && (rest[i] == x || rest[i] in s)
    {
      if rest[i] != x {
        var j :| 0 <= j < |s[1..]| && s[1..][j] == rest[i];
        assert s[j + 1] == rest[i];
      }
    }
    assert forall i :: 1 <= i < |r| ==> r[i] == rest[i - 1];
    var t := [s[0]] + s[1..];
    assert t == s;
  }

  /** A stable sort ascending by `key`: elements with equal keys keep their
      input order, as the (stable) JavaScript `sort` keeps them. */
  function SortBy<T>(s: seq<T>, key: T -> int): (r: seq<T>)
    ensures SortedBy(r, key)
    ensures multiset(r) == multiset(s)
    ensures |r| == |s|
  {
    if |s| == 0 then []
    else
      assert s == [s[0]] + s[1..];
      Insert(s[0], SortBy(s[1..], key), key)
  }
}
