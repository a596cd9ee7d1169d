/** Sequence helpers with pandas meaning: `drop_duplicates()` keeps the first
    appearance of each value in table order. */
module Collections {
  import opened Results
  import opened Ordering

  /** Position of the first element satisfying `p`: what pandas'
      `df[mask].values[0]` reads. */
  function FindFirst<T>(xs: seq<T>, p: T -> bool): (r: Option<nat>)
    ensures r.Some? ==> r.value < |xs| && p(xs[r.value])
    ensures r.Some? ==> forall j :: 0 <= j < r.value ==> !p(xs[j])
    ensures r.None? <==> forall j :: 0 <= j < |xs| ==> !p(xs[j])
  {
    if |xs| == 0 then None
    else if p(xs[0]) then Some(0)
    else
      match FindFirst(xs[1..], p)
      case None => None
      case Some(i) => Some(i + 1)
  }

  /** The position where `p` first holds is what `FindFirst` reports. */
  lemma FindFirstIs<T>(xs: seq<T>, p: T -> bool, i: nat)
    requires i < |xs| && p(xs[i])
    requires forall j :: 0 <= j < i ==> !p(xs[j])
    ensures FindFirst(xs, p) == Some(i)
  {
  }

  /** Index of the first appearance of `x` in `xs`. */
  function FirstIndex<T(==)>(xs: seq<T>, x: T): (i: nat)
    requires x in xs
    ensures i < |xs| && xs[i] == x
    ensures forall j :: 0 <= j < i ==> xs[j] != x
  {
    if xs[0] == x then 0 else 1 + FirstIndex(xs[1..], x)
  }

  predicate NoDuplicates<T(==)>(xs: seq<T>) {
    forall i, j :: 0 <= i < j < |xs| ==> xs[i] != xs[j]
  }

  /** `drop_duplicates()`: each value once, in order of first appearance. */
  function Distinct<T(==,!new)>(xs: seq<T>): (r: seq<T>)
    ensures forall x :: x in r <==> x in xs
    ensures NoDuplicates(r)
    ensures forall i, j :: 0 <= i < j < |r| ==> FirstIndex(xs, r[i]) < FirstIndex(xs, r[j])
  {
    if |xs| == 0 then []
    else
      var d := Distinct(xs[..|xs| - 1]);
      DistinctStep(xs, d);
      if xs[|xs| - 1] in d then d else d + [xs[|xs| - 1]]
  }

  /** One step of `Distinct`: the last value is kept when it is new. */
  lemma DistinctStep<T(!new)>(xs: seq<T>, d: seq<T>)
    requires |xs| > 0
    requires forall x :: x in d <==> x in xs[..|xs| - 1]
    requires NoDuplicates(d)
    requires forall i :: 0 <= i < |d| ==> d[i] in xs[..|xs| - 1]
    requires forall i, j :: 0 <= i < j < |d| ==> FirstIndex(xs[..|xs| - 1], d[i]) < FirstIndex(xs[..|xs| - 1], d[j])
    ensures var r := if xs[|xs| - 1] in d then d else d + [xs[|xs| - 1]];
            && (forall x :: x in r <==> x in xs)
            && NoDuplicates(r)
            && forall i, j :: 0 <= i < j < |r| ==> FirstIndex(xs, r[i]) < FirstIndex(xs, r[j])
  {
    var init := xs[..|xs| - 1];
    assert xs == init + [xs[|xs| - 1]];
    forall x | x in init ensures FirstIndex(xs, x) == FirstIndex(init, x) {
      FirstIndexPrefix(xs, init, x);
    }
    if xs[|xs| - 1] !in d {
      FirstIndexOfNew(xs);
    }
  }

  lemma {:induction false} FirstIndexPrefix<T>(xs: seq<T>, init: seq<T>, x: T)
    requires |init| <= |xs| && init == xs[..|init|]
    requires x in init
    ensures FirstIndex(xs, x) == FirstIndex(init, x)
  {
    if xs[0] != x {
      assert init[0] == xs[0];
      FirstIndexPrefix(xs[1..], init[1..], x);
    }
  }

  lemma FirstIndexOfNew<T>(xs: seq<T>)
    requires |xs| > 0 && xs[|xs| - 1] !in xs[..|xs| - 1]
    ensures FirstIndex(xs, xs[|xs| - 1]) == |xs| - 1
  {
    var k := FirstIndex(xs, xs[|xs| - 1]);
    assert forall j :: 0 <= j < |xs| - 1 ==> xs[..|xs| - 1][j] == xs[j];
  }

  /** Number of elements of `xs` satisfying `p`. */
  function CountIf<T>(xs: seq<T>, p: T -> bool): nat
  {
    if |xs| == 0 then 0
    else CountIf(xs[..|xs| - 1], p) + (if p(xs[|xs| - 1]) then 1 else 0)
  }

  lemma {:induction false} CountIfAppend<T>(xs: seq<T>, ys: seq<T>, p: T -> bool)
    ensures CountIf(xs + ys, p) == CountIf(xs, p) + CountIf(ys, p)
    decreases |ys|
  {
    if |ys| > 0 {
      assert (xs + ys)[..|xs + ys| - 1] == xs + ys[..|ys| - 1];
      CountIfAppend(xs, ys[..|ys| - 1], p);
    } else {
      assert xs + ys == xs;
    }
  }

  lemma {:induction false} CountIfAll<T>(xs: seq<T>, p: T -> bool)
    requires forall i :: 0 <= i < |xs| ==> p(xs[i])
    ensures CountIf(xs, p) == |xs|
  {
    if |xs| > 0 { CountIfAll(xs[..|xs| - 1], p); }
  }

  lemma {:induction false} CountIfNone<T>(xs: seq<T>, p: T -> bool)
    requires forall i :: 0 <= i < |xs| ==> !p(xs[i])
    ensures CountIf(xs, p) == 0
  {
    if |xs| > 0 { CountIfNone(xs[..|xs| - 1], p); }
  }

  /** An element satisfying `p` raises the count of every longer prefix. */
  lemma CountIfPrefixGrows<T>(xs: seq<T>, p: T -> bool, i: nat, j: nat)
    requires i < j <= |xs| && p(xs[i])
    ensures CountIf(xs[..i], p) < CountIf(xs[..j], p)
  {
    assert xs[..j] == xs[..i + 1] + xs[i + 1..j];
    assert xs[..i + 1][..i] == xs[..i];
    CountIfAppend(xs[..i + 1], xs[i + 1..j], p);
  }

  /** Every count from 1 to `CountIf(xs, p)` is reached: the element with
      rank `n` among those satisfying `p` has `n - 1` of them before it. */
  lemma {:induction false} CountIfRanks<T>(xs: seq<T>, p: T -> bool, n: nat)
    requires 1 <= n <= CountIf(xs, p)
    ensures exists i :: 0 <= i < |xs| && p(xs[i]) && CountIf(xs[..i], p) + 1 == n
  {
    var init := xs[..|xs| - 1];
    if n <= CountIf(init, p) {
      CountIfRanks(init, p, n);
      var i :| 0 <= i < |init| && p(init[i]) && CountIf(init[..i], p) + 1 == n;
      assert xs[..i] == init[..i];
    } else {
      assert xs[..|xs| - 1] == init;
    }
  }

  /** The elements of `xs` that satisfy `p`, in order. */
  function FilterBy<T(!new)>(xs: seq<T>, p: T -> bool): (r: seq<T>)
    ensures forall x :: x in r <==> x in xs && p(x)
    ensures |r| == CountIf(xs, p)
  {
    if |xs| == 0 then []
    else
      var init := FilterBy(xs[..|xs| - 1], p);
      assert forall x :: x in xs <==> x in xs[..|xs| - 1] || x == xs[|xs| - 1] by {
        assert xs == xs[..|xs| - 1] + [xs[|xs| - 1]];
      }
      if p(xs[|xs| - 1]) then init + [xs[|xs| - 1]] else init
  }

  /** The first kept element with property `q` is the first element of
      `xs` that is both kept and has `q`: a mask keeps the table's order. */
  lemma {:induction false} FilterByFirst<T(!new)>(xs: seq<T>, p: T -> bool, q: T -> bool, i: nat)
    requires i < |xs| && p(xs[i]) && q(xs[i])
    requires forall j :: 0 <= j < i && p(xs[j]) ==> !q(xs[j])
    ensures FindFirst(FilterBy(xs, p), q).Some?
    ensures FilterBy(xs, p)[FindFirst(FilterBy(xs, p), q).value] == xs[i]
  {
    var init := xs[..|xs| - 1];
    var last := xs[|xs| - 1];
    var f := FilterBy(init, p);
    var fs := FilterBy(xs, p);
    assert fs == if p(last) then f + [last] else f;
    if i < |xs| - 1 {
      FilterByFirst(init, p, q, i);
      var k := FindFirst(f, q).value;
      FindFirstIs(fs, q, k);
    } else {
      forall j | 0 <= j < |f| ensures !q(f[j]) {
        assert f[j] in f;
        var m :| 0 <= m < |init| && init[m] == f[j];
      }
      FindFirstIs(fs, q, |f|);
    }
  }

  /** `drop_duplicates()` keeps the first element with property `q` first
      among those with `q`. */
  lemma DistinctFirst<T(!new)>(xs: seq<T>, q: T -> bool, k: nat)
    requires k < |xs| && q(xs[k])
    requires forall j :: 0 <= j < k ==> !q(xs[j])
    ensures FindFirst(Distinct(xs), q).Some?
    ensures Distinct(xs)[FindFirst(Distinct(xs), q).value] == xs[k]
  {
    var d := Distinct(xs);
    assert xs[k] in xs;
    var m :| 0 <= m < |d| && d[m] == xs[k];
    assert FirstIndex(xs, xs[k]) <= k;
    forall j | 0 <= j < m ensures !q(d[j]) {
      assert d[j] in xs;
      var a := FirstIndex(xs, d[j]);
    }
    FindFirstIs(d, q, m);
  }

  /** Filtering keeps how often each kept value occurs. */
  lemma {:induction false} FilterByMultiplicity<T(!new)>(xs: seq<T>, p: T -> bool, x: T)
    ensures multiset(FilterBy(xs, p))[x] == if p(x) then multiset(xs)[x] else 0
  {
    if |xs| > 0 {
      var init := xs[..|xs| - 1];
      FilterByMultiplicity(init, p, x);
      assert xs == init + [xs[|xs| - 1]];
    }
  }

  /** Filtering two permutations of each other gives permutations of each
      other. */
  lemma FilterByPermutation<T(!new)>(xs: seq<T>, ys: seq<T>, p: T -> bool)
    requires multiset(xs) == multiset(ys)
    ensures multiset(FilterBy(xs, p)) == multiset(FilterBy(ys, p))
  {
    forall x ensures multiset(FilterBy(xs, p))[x] == multiset(FilterBy(ys, p))[x] {
      FilterByMultiplicity(xs, p, x);
      FilterByMultiplicity(ys, p, x);
    }
  }

  /** Filtering a sorted sequence leaves it sorted. */
  lemma {:induction false} FilterBySorted<T(!new)>(xs: seq<T>, p: T -> bool, le: (T, T) -> bool)
    requires SortedBy(xs, le)
    ensures SortedBy(FilterBy(xs, p), le)
  {
    if |xs| > 0 {
      var init := xs[..|xs| - 1];
      var last := xs[|xs| - 1];
      assert SortedBy(init, le);
      FilterBySorted(init, p, le);
      if p(last) {
        var f := FilterBy(init, p);
        forall k | 0 <= k < |f| ensures le(f[k], last) {
          assert f[k] in init;
          var j :| 0 <= j < |init| && init[j] == f[k];
        }
      }
    }
  }
}
