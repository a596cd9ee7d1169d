/** The two orders the Python code sorts by: a key compared with `<=`
    (numbers or strings), through Python's stable `sorted`/`list.sort`. */
module Ordering {

  /** Python's `a <= b` on strings: lexicographic by code point. */
  predicate LexLe(a: string, b: string)
    decreases |a|
  {
    |a| == 0 || (|b| > 0 && (a[0] < b[0] || (a[0] == b[0] && LexLe(a[1..], b[1..]))))
  }

  lemma {:induction false} LexLeTotal(a: string, b: string)
    ensures LexLe(a, b) || LexLe(b, a)
    decreases |a|
  {
    if |a| > 0 && |b| > 0 && a[0] == b[0] {
      LexLeTotal(a[1..], b[1..]);
    }
  }

  lemma {:induction false} LexLeTrans(a: string, b: string, c: string)
    requires LexLe(a, b) && LexLe(b, c)
    ensures LexLe(a, c)
    decreases |a|
  {
    if |a| > 0 && a[0] == b[0] && b[0] == c[0] {
      LexLeTrans(a[1..], b[1..], c[1..]);
    }
  }

  lemma {:induction false} LexLeAntisym(a: string, b: string)
    requires LexLe(a, b) && LexLe(b, a)
    ensures a == b
    decreases |a|
  {
    if |a| > 0 {
      LexLeAntisym(a[1..], b[1..]);
      assert a == [a[0]] + a[1..] && b == [b[0]] + b[1..];
    }
  }

  /** `le` orders every pair of values and is transitive, as a `key=`
      function followed by `<=` always is. */
  ghost predicate TotalPreorder<T(!new)>(le: (T, T) -> bool) {
    && (forall a, b :: le(a, b) || le(b, a))
    && (forall a, b, c :: le(a, b) && le(b, c) ==> le(a, c))
  }

  ghost predicate SortedBy<T>(xs: seq<T>, le: (T, T) -> bool) {
    forall i, j :: 0 <= i < j < |xs| ==> le(xs[i], xs[j])
  }

  /** Places `x` after every element it does not precede strictly, so that
      equal keys keep their input order. */
  function Insert<T(!new)>(x: T, xs: seq<T>, le: (T, T) -> bool): (r: seq<T>)
    requires TotalPreorder(le)
    requires SortedBy(xs, le)
    ensures SortedBy(r, le)
    ensures multiset(r) == multiset(xs) + multiset{x}
  {
    if |xs| == 0 then [x]
    else if !le(xs[0], x) then
      assert xs == [xs[0]] + xs[1..];
      [x] + xs
    else
      var rest := Insert(x, xs[1..], le);
      assert xs == [xs[0]] + xs[1..];
      SortedCons(xs[0], xs[1..], x, rest, le);
      [xs[0]] + rest
  }

  /** A head that precedes every element of the tail and the inserted
      value precedes every element of their sorted merge. */
  lemma SortedCons<T(!new)>(h: T, tail: seq<T>, x: T, rest: seq<T>, le: (T, T) -> bool)
    requires SortedBy([h] + tail, le)
    requires le(h, x)
    requires SortedBy(rest, le)
    requires multiset(rest) == multiset(tail) + multiset{x}
    ensures SortedBy([h] + rest, le)
  {
    forall k | 0 <= k < |rest| ensures le(h, rest[k]) {
      assert rest[k] in multiset(rest);
      if rest[k] != x {
        assert rest[k] in multiset(tail);
        var j :| 0 <= j < |tail| && tail[j] == rest[k];
        assert ([h] + tail)[0] == h && ([h] + tail)[1 + j] == rest[k];
        assert le(([h] + tail)[0], ([h] + tail)[1 + j]);
      }
    }
    forall i, j | 0 <= i < j < |[h] + rest| ensures le(([h] + rest)[i], ([h] + rest)[j]) {
      if i > 0 {
        assert ([h] + rest)[i] == rest[i - 1] && ([h] + rest)[j] == rest[j - 1];
      }
    }
  }

  /** Python's stable `sorted(xs, key=...)`, as an insertion sort: the result
      is ordered and holds exactly the input's elements. */
  function SortBy<T(!new)>(xs: seq<T>, le: (T, T) -> bool): (r: seq<T>)
    requires TotalPreorder(le)
    ensures SortedBy(r, le)
    ensures multiset(r) == multiset(xs)
    ensures |r| == |xs|
  {
    if |xs| == 0 then []
    else
      assert xs == xs[..|xs| - 1] + [xs[|xs| - 1]];
      Insert(xs[|xs| - 1], SortBy(xs[..|xs| - 1], le), le)
  }
}
