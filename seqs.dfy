/**
 * Sequence operations behind the repository queries: `WHERE` (an order-keeping filter)
 * and `ORDER BY key DESC` (a sort by an integer key, largest first).
 */
module Seqs {

  /** The elements of `s` that satisfy `p`, in their order in `s`. */
  function Filter<T(!new)>(s: seq<T>, p: T -> bool): (r: seq<T>)
    ensures |r| <= |s|
    ensures forall x :: x in r <==> x in s && p(x)
  {
    if s == [] then []
    else
      var prefix, last := s[..|s| - 1], s[|s| - 1];
      assert s == prefix + [last];
      Filter(prefix, p) + if p(last) then [last] else []
  }

  /** A filter keeps every satisfying element as often as it occurs and drops the others. */
  lemma {:induction false} FilterMultiset<T(!new)>(s: seq<T>, p: T -> bool)
    ensures forall x :: multiset(Filter(s, p))[x] == if p(x) then multiset(s)[x] else 0
  {
    if s != [] {
      var prefix, last := s[..|s| - 1], s[|s| - 1];
      assert s == prefix + [last];
      FilterMultiset(prefix, p);
    }
  }

  lemma {:induction false} FilterAppend<T(!new)>(a: seq<T>, b: seq<T>, p: T -> bool)
    ensures Filter(a + b, p) == Filter(a, p) + Filter(b, p)
  {
    if b != [] {
      var b', last := b[..|b| - 1], b[|b| - 1];
      assert (a + b)[..|a + b| - 1] == a + b';
      FilterAppend(a, b', p);
    } else {
      assert a + b == a;
    }
  }

  /** A filter keeps everything exactly when every element satisfies the predicate. */
  lemma {:induction false} FilterAll<T(!new)>(s: seq<T>, p: T -> bool)
    requires forall x :: x in s ==> p(x)
    ensures Filter(s, p) == s
  {
    if s != [] {
      var prefix, last := s[..|s| - 1], s[|s| - 1];
      assert s == prefix + [last];
      assert forall x :: x in prefix ==> x in s;
      FilterAll(prefix, p);
      assert p(last);
    }
  }

  /** The positions of `s` whose element satisfies `p`. */
  function Positions<T>(s: seq<T>, p: T -> bool): (r: set<int>)
    ensures forall i :: i in r <==> 0 <= i < |s| && p(s[i])
  {
    if s == [] then {}
    else
      var prefix := s[..|s| - 1];
      Positions(prefix, p) + if p(s[|s| - 1]) then {|s| - 1} else {}
  }

  /** The length of a filter is the number of positions whose element satisfies the predicate. */
  lemma {:induction false} PositionsCount<T(!new)>(s: seq<T>, p: T -> bool)
    ensures |Filter(s, p)| == |Positions(s, p)|
  {
    if s != [] {
      var prefix := s[..|s| - 1];
      PositionsCount(prefix, p);
      assert |s| - 1 !in Positions(prefix, p);
    }
  }

  /** A filter that rejects exactly the element at position `k` removes that element and keeps the rest in order. */
  lemma {:induction false} FilterRemovesOne<T(!new)>(s: seq<T>, p: T -> bool, k: nat)
    requires k < |s| && !p(s[k])
    requires forall j :: 0 <= j < |s| && j != k ==> p(s[j])
    ensures Filter(s, p) == s[..k] + s[k + 1..]
  {
    var front, back := s[..k], s[k + 1..];
    assert s == front + ([s[k]] + back);
    AllSatisfy(front, p, s, 0);
    AllSatisfy(back, p, s, k + 1);
    FilterAll(front, p);
    FilterAll(back, p);
    assert Filter([s[k]], p) == [] by { assert [s[k]][..0] == []; }
    FilterAppend([s[k]], back, p);
    assert Filter([s[k]] + back, p) == back;
    FilterAppend(front, [s[k]] + back, p);
    assert Filter(front + ([s[k]] + back), p) == front + back;
  }

  lemma AllSatisfy<T>(part: seq<T>, p: T -> bool, s: seq<T>, offset: nat)
    requires offset + |part| <= |s|
    requires forall j :: 0 <= j < |part| ==> part[j] == s[offset + j] && p(s[offset + j])
    ensures forall x :: x in part ==> p(x)
  {
  }

  /** No two elements share a key. */
  ghost predicate DistinctBy<T, K>(s: seq<T>, key: T -> K) {
    forall i, j :: 0 <= i < j < |s| ==> key(s[i]) != key(s[j])
  }

  /** A filter keeps the elements' keys pairwise distinct. */
  lemma {:induction false} FilterDistinctBy<T(!new), K>(s: seq<T>, p: T -> bool, key: T -> K)
    requires DistinctBy(s, key)
    ensures DistinctBy(Filter(s, p), key)
  {
    if s != [] {
      var prefix, last := s[..|s| - 1], s[|s| - 1];
      assert DistinctBy(prefix, key);
      FilterDistinctBy(prefix, p, key);
      var r' := Filter(prefix, p);
      if p(last) {
        var r := r' + [last];
        forall i, j | 0 <= i < j < |r| ensures key(r[i]) != key(r[j]) {
          if j == |r'| {
            assert r'[i] in r';
            var m :| 0 <= m < |prefix| && prefix[m] == r'[i];
            assert s[m] == r[i] && s[|s| - 1] == r[j];
          } else {
            assert r[i] == r'[i] && r[j] == r'[j];
          }
        }
      }
    }
  }

  /** Descending by `key`. */
  ghost predicate Descending<T(!new)>(s: seq<T>, key: T -> int) {
    forall i, j :: 0 <= i < j < |s| ==> key(s[i]) >= key(s[j])
  }

  /** Putting `h` in front of a descending sequence none of whose keys exceeds `h`'s keeps it descending. */
  lemma PrependDescending<T(!new)>(h: T, s: seq<T>, key: T -> int)
    requires Descending(s, key)
    requires forall y :: y in s ==> key(h) >= key(y)
    ensures Descending([h] + s, key)
  {
    var r := [h] + s;
    forall i, j | 0 <= i < j < |r| ensures key(r[i]) >= key(r[j]) {
      assert r[j] == s[j - 1];
      if i == 0 {
        assert s[j - 1] in s;
      } else {
        assert r[i] == s[i - 1];
      }
    }
  }

  /** Inserting `x` below the head `h` of a descending sequence keeps every key at most `h`'s. */
  lemma BoundedByHead<T(!new)>(h: T, x: T, s: seq<T>, rest: seq<T>, key: T -> int)
    requires Descending([h] + s, key)
    requires key(h) >= key(x)
    requires multiset(rest) == multiset(s) + multiset{x}
    ensures forall y :: y in rest ==> key(h) >= key(y)
  {
    forall y | y in rest ensures key(h) >= key(y) {
      assert y in multiset(rest);
      if y != x {
        assert y in multiset(s);
        assert y in s;
        var j :| 0 <= j < |s| && s[j] == y;
        var hs := [h] + s;
        assert hs[0] == h && hs[j + 1] == y;
        assert key(hs[0]) >= key(hs[j + 1]);
      }
    }
  }

  /** Inserts `x` into a sequence sorted by descending key, before the first element it is not below. */
  function InsertDescending<T(!new)>(x: T, s: seq<T>, key: T -> int): (r: seq<T>)
    requires Descending(s, key)
    ensures Descending(r, key)
    ensures multiset(r) == multiset(s) + multiset{x}
  {
    if s == [] then [x]
    else if key(x) >= key(s[0]) then
      PrependDescending(x, s, key);
      [x] + s
    else
      assert s == [s[0]] + s[1..];
      var rest := InsertDescending(x, s[1..], key);
      BoundedByHead(s[0], x, s[1..], rest, key);
      PrependDescending(s[0], rest, key);
      [s[0]] + rest
  }

  /** `ORDER BY key DESC`: a permutation of `s` in descending key order. */
  function SortDescending<T(!new)>(s: seq<T>, key: T -> int): (r: seq<T>)
    ensures Descending(r, key)
    ensures multiset(r) == multiset(s)
  {
    if s == [] then []
    else
      var prefix := s[..|s| - 1];
      assert s == prefix + [s[|s| - 1]];
      InsertDescending(s[|s| - 1], SortDescending(prefix, key), key)
  }
}
