/** Generic sequence operations standing for the JavaScript array methods and
    Mongo cursor operations the source uses: `filter`, `countDocuments`,
    `sort`, `limit` and `reverse`. */
module Seqs {
  import opened Wrappers

  /** `r` is `s` with some elements left out, the rest in their order. */
  ghost predicate IsSubseq<T>(r: seq<T>, s: seq<T>)
    decreases |s|
  {
    if r == [] then true
    else if s == [] then false
    else (r[0] == s[0] && IsSubseq(r[1..], s[1..])) || IsSubseq(r, s[1..])
  }

  /** `Array.prototype.filter`: the elements satisfying `p`, in order. */
  function Filter<T(!new)>(s: seq<T>, p: T -> bool): (r: seq<T>)
    ensures |r| <= |s|
    ensures forall x :: x in r <==> x in s && p(x)
  {
    if s == [] then [] else (if p(s[0]) then [s[0]] else []) + Filter(s[1..], p)
  }

  /** Filtering keeps every selected element as often as it occurs, and no
      other element. */
  lemma {:induction false} FilterCounts<T(!new)>(s: seq<T>, p: T -> bool)
    ensures forall x :: multiset(Filter(s, p))[x] == if p(x) then multiset(s)[x] else 0
  {
    if s != [] {
      var head := if p(s[0]) then [s[0]] else [];
      var tail := Filter(s[1..], p);
      FilterCounts(s[1..], p);
      assert s == [s[0]] + s[1..];
      assert multiset(s) == multiset{s[0]} + multiset(s[1..]);
      assert Filter(s, p) == head + tail;
      assert multiset(head + tail) == multiset(head) + multiset(tail);
    }
  }

  /** Filtering keeps the order of the selected elements. */
  lemma {:induction false} FilterIsSubseq<T(!new)>(s: seq<T>, p: T -> bool)
    ensures IsSubseq(Filter(s, p), s)
  {
    if s != [] {
      var tail := Filter(s[1..], p);
      FilterIsSubseq(s[1..], p);
      if p(s[0]) {
        var r := Filter(s, p);
        assert r == [s[0]] + tail;
        assert r[0] == s[0] && r[1..] == tail;
      } else {
        assert Filter(s, p) == tail;
      }
    }
  }

  /** The number of elements satisfying `p` (`filter(p).length`, `countDocuments`). */
  function Count<T(!new)>(s: seq<T>, p: T -> bool): nat {
    |Filter(s, p)|
  }

  lemma {:induction false} FilterAppend<T(!new)>(s: seq<T>, t: seq<T>, p: T -> bool)
    ensures Filter(s + t, p) == Filter(s, p) + Filter(t, p)
  {
    if s == [] {
      assert s + t == t;
    } else {
      assert (s + t)[0] == s[0];
      assert (s + t)[1..] == s[1..] + t;
      FilterAppend(s[1..], t, p);
    }
  }

  lemma {:induction false} FilterAll<T(!new)>(s: seq<T>, p: T -> bool)
    requires forall x :: x in s ==> p(x)
    ensures Filter(s, p) == s
  {
    if s != [] {
      FilterAll(s[1..], p);
    }
  }

  lemma {:induction false} FilterNone<T(!new)>(s: seq<T>, p: T -> bool)
    requires forall x :: x in s ==> !p(x)
    ensures Filter(s, p) == []
  {
    if s != [] {
      FilterNone(s[1..], p);
    }
  }

  /** No two elements of `s` share a key. */
  ghost predicate DistinctKeys<T, K>(s: seq<T>, key: T -> K) {
    forall i, j :: 0 <= i < j < |s| ==> key(s[i]) != key(s[j])
  }

  /** Filtering keeps elements with distinct keys distinct. */
  lemma {:induction false} FilterDistinct<T(!new), K>(s: seq<T>, p: T -> bool, key: T -> K)
    requires DistinctKeys(s, key)
    ensures DistinctKeys(Filter(s, p), key)
  {
    if s != [] {
      var rest := s[1..];
      forall i, j | 0 <= i < j < |rest| ensures key(rest[i]) != key(rest[j]) {
        assert rest[i] == s[i + 1] && rest[j] == s[j + 1];
      }
      FilterDistinct(rest, p, key);
      var tail := Filter(rest, p);
      if p(s[0]) {
        var r := Filter(s, p);
        assert r == [s[0]] + tail;
        forall i, j | 0 <= i < j < |r| ensures key(r[i]) != key(r[j]) {
          if i == 0 {
            assert r[j] == tail[j - 1] && tail[j - 1] in rest;
            var k :| 0 <= k < |rest| && rest[k] == r[j];
            assert s[k + 1] == r[j] && key(s[0]) != key(s[k + 1]);
          } else {
            assert r[i] == tail[i - 1] && r[j] == tail[j - 1];
          }
        }
      } else {
        assert Filter(s, p) == tail;
      }
    }
  }

  /** If no two elements both satisfy `p`, at most one element does. */
  lemma {:induction false} CountAtMostOne<T(!new)>(s: seq<T>, p: T -> bool)
    requires forall i, j :: 0 <= i < j < |s| && p(s[i]) ==> !p(s[j])
    ensures Count(s, p) <= 1
  {
    if s != [] {
      var rest := s[1..];
      forall i, j | 0 <= i < j < |rest| && p(rest[i]) ensures !p(rest[j]) {
        assert rest[i] == s[i + 1] && rest[j] == s[j + 1];
      }
      CountAtMostOne(rest, p);
      if p(s[0]) {
        forall w | w in rest ensures !p(w) {
          var k :| 0 <= k < |rest| && rest[k] == w;
          assert s[k + 1] == w;
        }
        FilterNone(rest, p);
      }
    }
  }

  /** `map(f)` followed by `filter(x => x !== null)`. */
  function FilterMap<A, B>(s: seq<A>, f: A -> Option<B>): (r: seq<B>)
    ensures |r| <= |s|
  {
    if s == [] then []
    else
      match f(s[0])
      case None => FilterMap(s[1..], f)
      case Some(x) => [x] + FilterMap(s[1..], f)
  }

  /** When `f` yields a value for every element, nothing is dropped. */
  lemma {:induction false} FilterMapAllSome<A, B>(s: seq<A>, f: A -> Option<B>)
    requires forall i :: 0 <= i < |s| ==> f(s[i]).Some?
    ensures |FilterMap(s, f)| == |s|
    ensures forall i :: 0 <= i < |s| ==> FilterMap(s, f)[i] == f(s[i]).value
  {
    if s != [] {
      var rest := s[1..];
      assert forall i :: 0 <= i < |rest| ==> rest[i] == s[i + 1];
      FilterMapAllSome(rest, f);
    }
  }

  /** `limit(n)`: the first `n` elements, or all of them when there are fewer. */
  function Take<T>(s: seq<T>, n: nat): (r: seq<T>)
    ensures |r| == Min(n, |s|)
    ensures r == s[..|r|]
  {
    if n <= |s| then s[..n] else s
  }

  /** `Array.prototype.reverse`. */
  function Reverse<T(!new)>(s: seq<T>): (r: seq<T>)
    ensures |r| == |s|
    ensures forall i :: 0 <= i < |s| ==> r[i] == s[|s| - 1 - i]
    ensures forall x :: x in r <==> x in s
    ensures multiset(r) == multiset(s)
  {
    if s == [] then [] else assert s == [s[0]] + s[1..]; Reverse(s[1..]) + [s[0]]
  }

  /** Ordered by `key`, largest first (a Mongo `sort({key: -1})`). */
  ghost predicate SortedDesc<T>(s: seq<T>, key: T -> int) {
    forall i, j :: 0 <= i < j < |s| ==> key(s[i]) >= key(s[j])
  }

  function Insert<T(!new)>(x: T, s: seq<T>, key: T -> int): (r: seq<T>)
    ensures multiset(r) == multiset(s) + multiset{x}
    ensures forall y :: y in r <==> y == x || y in s
  {
    if s == [] || key(x) >= key(s[0]) then
      [x] + s
    else
      assert s == [s[0]] + s[1..];
      [s[0]] + Insert(x, s[1..], key)
  }

  lemma {:induction false} InsertSorted<T(!new)>(x: T, s: seq<T>, key: T -> int)
    requires SortedDesc(s, key)
    ensures SortedDesc(Insert(x, s, key), key)
  {
    if s == [] || key(x) >= key(s[0]) {
    } else {
      var rest := Insert(x, s[1..], key);
      InsertSorted(x, s[1..], key);
      forall k | 0 <= k < |rest|
        ensures key(s[0]) >= key(rest[k])
      {
        assert rest[k] in rest;
        if rest[k] != x {
          var j :| 0 <= j < |s[1..]| && s[1..][j] == rest[k];
          assert s[j + 1] == rest[k];
        }
      }
      var r := [s[0]] + rest;
      forall i, j | 0 <= i < j < |r|
        ensures key(r[i]) >= key(r[j])
      {
        if i > 0 {
          assert r[i] == rest[i - 1] && r[j] == rest[j - 1];
        } else {
          assert r[j] == rest[j - 1];
        }
      }
    }
  }

  /** A stable sort by `key`, largest first. Mongo leaves the order of equal
      keys unspecified; every property below holds for any order of ties. */
  function SortDesc<T(!new)>(s: seq<T>, key: T -> int): (r: seq<T>)
    ensures SortedDesc(r, key)
    ensures multiset(r) == multiset(s)
  {
    if s == [] then []
    else
      assert s == [s[0]] + s[1..];
      var tail := SortDesc(s[1..], key);
      InsertSorted(s[0], tail, key);
      Insert(s[0], tail, key)
  }

  /** `find().sort({key: -1}).limit(k)`: the `k` elements with the largest
      keys, largest first. */
  function TopK<T(!new)>(s: seq<T>, key: T -> int, k: nat): (r: seq<T>)
    ensures |r| == Min(k, |s|)
    ensures multiset(r) <= multiset(s)
    ensures forall x :: x in r ==> x in s
    ensures SortedDesc(r, key)
    ensures forall x, y :: x in s && x !in r && y in r ==> key(x) <= key(y)
  {
    var sorted := SortDesc(s, key);
    TakeSorted(sorted, key, k);
    TakeLeavesSmaller(s, sorted, key, k);
    var r := Take(sorted, k);
    forall x | x in r ensures x in s {
      assert x in multiset(r);
    }
    r
  }

  /** A prefix of a sorted sequence is sorted, part of it, and no smaller
      than what follows it. */
  lemma {:induction false} TakeSorted<T>(sorted: seq<T>, key: T -> int, k: nat)
    requires SortedDesc(sorted, key)
    ensures multiset(Take(sorted, k)) <= multiset(sorted)
    ensures SortedDesc(Take(sorted, k), key)
    ensures forall i, j :: 0 <= j < |Take(sorted, k)| <= i < |sorted| ==> key(sorted[i]) <= key(Take(sorted, k)[j])
  {
    var r := Take(sorted, k);
    assert sorted == r + sorted[|r|..];
    assert multiset(sorted) == multiset(r) + multiset(sorted[|r|..]);
  }

  lemma {:induction false} TakeLeavesSmaller<T(!new)>(s: seq<T>, sorted: seq<T>, key: T -> int, k: nat)
    requires multiset(sorted) == multiset(s)
    requires forall i, j :: 0 <= j < |Take(sorted, k)| <= i < |sorted| ==> key(sorted[i]) <= key(Take(sorted, k)[j])
    ensures forall x, y :: x in s && x !in Take(sorted, k) && y in Take(sorted, k) ==> key(x) <= key(y)
  {
    var r := Take(sorted, k);
    forall x, y | x in s && x !in r && y in r
      ensures key(x) <= key(y)
    {
      assert x in multiset(sorted);
      var i :| 0 <= i < |sorted| && sorted[i] == x;
      var j :| 0 <= j < |r| && r[j] == y;
      assert i >= |r|;
    }
  }
}
