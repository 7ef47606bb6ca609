/** Nearest-rank percentile over a copy of the samples, sorted ascending.
    The source indexes `sorted[floor(p / 100 * N)]` with no clamp and no
    error, so an index outside [0, N) is excluded by the precondition. */
module Percentile {

  ghost predicate Sorted(s: seq<int>) {
    forall i, j :: 0 <= i <= j < |s| ==> s[i] <= s[j]
  }

  /** Number of samples strictly below v. */
  function CountBelow(s: seq<int>, v: int): (r: nat)
    ensures r <= |s|
  {
    if s == [] then 0 else (if s[0] < v then 1 else 0) + CountBelow(s[1..], v)
  }

  /** Inserts x in front of the first element not below it. */
  function Insert(x: int, s: seq<int>): (r: seq<int>)
    ensures |r| == |s| + 1
    ensures r[0] == x || (s != [] && r[0] == s[0])
  {
    if s == [] || x <= s[0] then [x] + s
    else [s[0]] + Insert(x, s[1..])
  }

  /** Inserting into an ascending sequence keeps it ascending and adds
      exactly x. */
  lemma {:induction false} InsertSpec(x: int, s: seq<int>)
    requires Sorted(s)
    ensures Sorted(Insert(x, s))
    ensures multiset(Insert(x, s)) == multiset(s) + multiset{x}
  {
    if s == [] || x <= s[0] {
      SortedCons(x, s);
    } else {
      var rest := Insert(x, s[1..]);
      InsertSpec(x, s[1..]);
      InsertBehind(x, s, rest);
    }
  }

  /** Putting the head back in front of the insertion into the tail. */
  lemma {:induction false} InsertBehind(x: int, s: seq<int>, rest: seq<int>)
    requires Sorted(s) && s != [] && s[0] < x
    requires Sorted(rest) && multiset(rest) == multiset(s[1..]) + multiset{x}
    requires rest != [] && (rest[0] == x || (|s| > 1 && rest[0] == s[1]))
    ensures Sorted([s[0]] + rest)
    ensures multiset([s[0]] + rest) == multiset(s) + multiset{x}
  {
    assert s == [s[0]] + s[1..];
    SortedCons(s[0], rest);
  }

  lemma {:induction false} SortedCons(a: int, t: seq<int>)
    requires Sorted(t)
    requires t != [] ==> a <= t[0]
    ensures Sorted([a] + t)
  {
    var u := [a] + t;
    forall i, j | 0 <= i <= j < |u| ensures u[i] <= u[j] {
      if 0 < i { assert u[i] == t[i - 1] && u[j] == t[j - 1]; }
      else if 0 < j { assert u[j] == t[j - 1] && t[0] <= t[j - 1]; }
    }
  }

  /** The copy that `array.slice().sort((a, b) => a - b)` yields, by
      insertion. */
  function Sort(s: seq<int>): (r: seq<int>)
    ensures |r| == |s|
  {
    if s == [] then [] else Insert(s[0], Sort(s[1..]))
  }

  /** The copy is ascending and a permutation of the samples. */
  lemma {:induction false} SortSpec(s: seq<int>)
    ensures Sorted(Sort(s))
    ensures multiset(Sort(s)) == multiset(s)
  {
    if s != [] {
      SortSpec(s[1..]);
      InsertSpec(s[0], Sort(s[1..]));
      assert s == [s[0]] + s[1..];
    }
  }

  /** The rank `floor(p / 100 * N)`, in exact integer arithmetic. */
  function Rank(p: int, n: nat): int {
    (p * n) / 100
  }

  /** The rank is a valid index: what the source needs for `sorted[index]`
      to be a number rather than `undefined`. */
  predicate InRange(p: int, n: nat) {
    0 <= Rank(p, n) < n
  }

  /** percentile(array, p) */
  function Percentile(samples: seq<int>, p: int): (r: int)
    requires InRange(p, |samples|)
    ensures r in samples
    ensures CountBelow(samples, r) <= Rank(p, |samples|) < CountBelow(samples, r + 1)
  {
    var k := Rank(p, |samples|);
    var sorted := Sort(samples);
    SortSpec(samples);
    SortPreservesCounts(samples);
    RankOfSortedCopy(samples, sorted, k);
    sorted[k]
  }

  /** Sorting does not change how many samples lie below any value. */
  lemma {:induction false} SortPreservesCounts(s: seq<int>)
    ensures forall v :: CountBelow(Sort(s), v) == CountBelow(s, v)
  {
    forall v {
      SortPreservesCount(s, v);
    }
  }

  /** In any ascending sequence t with the same counts as the samples, the
      element at index k is a sample with at most k samples strictly below
      it and more than k at or below it. */
  lemma {:induction false} RankOfSortedCopy(samples: seq<int>, t: seq<int>, k: nat)
    requires Sorted(t) && k < |t|
    requires forall v :: CountBelow(t, v) == CountBelow(samples, v)
    ensures CountBelow(samples, t[k]) <= k < CountBelow(samples, t[k] + 1)
    ensures t[k] in samples
  {
    FewBelowSorted(t, k);
    ManyAtMostSorted(t, k);
    assert CountBelow(t, t[k]) == CountBelow(samples, t[k]);
    assert CountBelow(t, t[k] + 1) == CountBelow(samples, t[k] + 1);
    CountStepIsSample(samples, t[k]);
  }

  /** If counting below v + 1 finds more than counting below v, some sample is v. */
  lemma {:induction false} CountStepIsSample(s: seq<int>, v: int)
    requires CountBelow(s, v) < CountBelow(s, v + 1)
    ensures v in s
  {
    if s[0] != v {
      CountStepIsSample(s[1..], v);
    }
  }

  lemma {:induction false} CountBelowAppend(a: seq<int>, b: seq<int>, v: int)
    ensures CountBelow(a + b, v) == CountBelow(a, v) + CountBelow(b, v)
  {
    if a == [] {
      assert a + b == b;
    } else {
      assert (a + b)[1..] == a[1..] + b;
      CountBelowAppend(a[1..], b, v);
    }
  }

  lemma {:induction false} InsertCount(x: int, s: seq<int>, v: int)
    ensures CountBelow(Insert(x, s), v) == CountBelow(s, v) + (if x < v then 1 else 0)
  {
    if s == [] || x <= s[0] {
      CountBelowCons(x, s, v);
    } else {
      var rest := Insert(x, s[1..]);
      CountBelowCons(s[0], rest, v);
      InsertCount(x, s[1..], v);
    }
  }

  lemma CountBelowCons(a: int, t: seq<int>, v: int)
    ensures CountBelow([a] + t, v) == (if a < v then 1 else 0) + CountBelow(t, v)
  {
    assert ([a] + t)[1..] == t;
  }

  lemma {:induction false} SortPreservesCount(s: seq<int>, v: int)
    ensures CountBelow(Sort(s), v) == CountBelow(s, v)
  {
    if s != [] {
      SortPreservesCount(s[1..], v);
      InsertCount(s[0], Sort(s[1..]), v);
    }
  }

  lemma {:induction false} CountBelowAll(s: seq<int>, v: int)
    requires forall i :: 0 <= i < |s| ==> s[i] < v
    ensures CountBelow(s, v) == |s|
  {
    if s != [] { CountBelowAll(s[1..], v); }
  }

  lemma {:induction false} CountBelowNone(s: seq<int>, v: int)
    requires forall i :: 0 <= i < |s| ==> v <= s[i]
    ensures CountBelow(s, v) == 0
  {
    if s != [] { CountBelowNone(s[1..], v); }
  }

  /** In an ascending sequence the element at index k has at most k
      elements strictly below it ... */
  lemma {:induction false} FewBelowSorted(t: seq<int>, k: nat)
    requires Sorted(t) && k < |t|
    ensures CountBelow(t, t[k]) <= k
  {
    var v := t[k];
    var lo, hi := t[..k], t[k..];
    assert t == lo + hi;
    forall i | 0 <= i < |hi| ensures v <= hi[i] { assert hi[i] == t[k + i]; }
    CountBelowAppend(lo, hi, v);
    CountBelowNone(hi, v);
  }

  /** ... and more than k elements at or below it. */
  lemma {:induction false} ManyAtMostSorted(t: seq<int>, k: nat)
    requires Sorted(t) && k < |t|
    ensures k < CountBelow(t, t[k] + 1)
  {
    var v := t[k];
    var lo, hi := t[..k + 1], t[k + 1..];
    assert t == lo + hi;
    forall i | 0 <= i < |lo| ensures lo[i] < v + 1 { assert lo[i] == t[i] && t[i] <= t[k]; }
    CountBelowAppend(lo, hi, v + 1);
    CountBelowAll(lo, v + 1);
  }

  lemma {:induction false} CountBelowMonotone(s: seq<int>, v: int, w: int)
    requires v <= w
    ensures CountBelow(s, v) <= CountBelow(s, w)
  {
    if s != [] { CountBelowMonotone(s[1..], v, w); }
  }

  /** The rank condition of Percentile's contract determines the value:
      any sort, not only this one, yields the same percentile. */
  lemma {:induction false} RankDeterminesValue(s: seq<int>, k: int, v: int, w: int)
    requires CountBelow(s, v) <= k < CountBelow(s, v + 1)
    requires CountBelow(s, w) <= k < CountBelow(s, w + 1)
    ensures v == w
  {
    if v < w { CountBelowMonotone(s, v + 1, w); }
    if w < v { CountBelowMonotone(s, w + 1, v); }
  }

  lemma {:induction false} RankMonotone(p1: int, p2: int, n: nat)
    requires p1 <= p2
    ensures Rank(p1, n) <= Rank(p2, n)
  {
    assert p1 * n <= p2 * n by { MulMonotone(p1, p2, n); }
  }

  lemma {:induction false} MulMonotone(a: int, b: int, n: nat)
    requires a <= b
    ensures a * n <= b * n
  {
    assert b * n - a * n == (b - a) * n;
  }

  /** Monotone in p: a higher percentile never yields a smaller value. */
  lemma {:induction false} PercentileMonotone(samples: seq<int>, p1: int, p2: int)
    requires p1 <= p2
    requires InRange(p1, |samples|) && InRange(p2, |samples|)
    ensures Percentile(samples, p1) <= Percentile(samples, p2)
  {
    var r1, r2 := Percentile(samples, p1), Percentile(samples, p2);
    RankMonotone(p1, p2, |samples|);
    if r1 > r2 {
      CountBelowMonotone(samples, r2 + 1, r1);
    }
  }

  /** p = 0 yields the minimum of the samples. */
  lemma {:induction false} PercentileZeroIsMinimum(samples: seq<int>)
    requires |samples| > 0
    ensures InRange(0, |samples|)
    ensures forall i :: 0 <= i < |samples| ==> Percentile(samples, 0) <= samples[i]
  {
    var r := Percentile(samples, 0);
    forall i | 0 <= i < |samples| ensures r <= samples[i] {
      if samples[i] < r { CountBelowPositive(samples, i, r); }
    }
  }

  lemma {:induction false} CountBelowPositive(s: seq<int>, i: nat, v: int)
    requires i < |s| && s[i] < v
    ensures CountBelow(s, v) > 0
  {
    if i > 0 { CountBelowPositive(s[1..], i - 1, v); }
  }

  /** Any p in [0, 100) is in range for a non-empty sample; p = 100, every
      negative p (whose floored index is negative), and every p for an
      empty sample, are out of range. */
  lemma {:induction false} InRangeExactly(p: int, n: nat)
    ensures 0 <= p < 100 && n > 0 ==> InRange(p, n)
    ensures p == 100 || n == 0 ==> !InRange(p, n)
    ensures p < 0 && n > 0 ==> !InRange(p, n)
  {
    if 0 <= p < 100 && n > 0 {
      MulMonotone(p, 99, n);
      assert 0 <= p * n by { MulMonotone(0, p, n); }
    }
    if p < 0 && n > 0 {
      MulMonotone(p, -1, n);
    }
  }

  /** A single sample is every in-range percentile of itself. */
  lemma {:induction false} PercentileOfSingleton(x: int, p: int)
    requires 0 <= p < 100
    ensures InRange(p, 1) && Percentile([x], p) == x
  {
    InRangeExactly(p, 1);
    assert multiset([x]) == multiset{x};
  }
}
