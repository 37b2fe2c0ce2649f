/** Summaries of benchmark times, over exact reals. */
module Stats {
  import Text

  /* ---- sorting, as the library does it ---- */

  predicate Sorted<T>(s: seq<T>, key: T -> real) {
    forall i, j :: 0 <= i < j < |s| ==> key(s[i]) <= key(s[j])
  }

  function Insert<T>(x: T, s: seq<T>, key: T -> real): seq<T> {
    if s == [] || key(x) <= key(s[0]) then [x] + s else [s[0]] + Insert(x, s[1..], key)
  }

  function Sort<T>(s: seq<T>, key: T -> real): seq<T> {
    if s == [] then [] else Insert(s[0], Sort(s[1..], key), key)
  }

  lemma {:induction false} InsertPermutes<T>(x: T, s: seq<T>, key: T -> real)
    ensures multiset(Insert(x, s, key)) == multiset(s) + multiset{x}
  {
    if s != [] && key(x) > key(s[0]) {
      var rest := Insert(x, s[1..], key);
      InsertPermutes(x, s[1..], key);
      assert s == [s[0]] + s[1..];
      assert multiset([s[0]] + rest) == multiset{s[0]} + multiset(rest);
    }
  }

  lemma {:induction false} InsertSorts<T>(x: T, s: seq<T>, key: T -> real)
    requires Sorted(s, key)
    ensures Sorted(Insert(x, s, key), key)
  {
    if s != [] && key(x) > key(s[0]) {
      var rest := Insert(x, s[1..], key);
      InsertSorts(x, s[1..], key);
      InsertPermutes(x, s[1..], key);
      forall i | 0 <= i < |rest| ensures key(s[0]) <= key(rest[i]) {
        assert rest[i] in multiset(rest);
        assert rest[i] == x || rest[i] in s[1..];
      }
    }
  }

  lemma SameLength<T>(a: seq<T>, b: seq<T>)
    requires multiset(a) == multiset(b)
    ensures |a| == |b|
  {
    assert |multiset(a)| == |a| && |multiset(b)| == |b|;
  }

  lemma {:induction false} SortSorts<T>(s: seq<T>, key: T -> real)
    ensures Sorted(Sort(s, key), key) && multiset(Sort(s, key)) == multiset(s)
    ensures |Sort(s, key)| == |s|
  {
    hide Sorted, Insert;
    if s == [] {
      NothingIsSorted(s, key);
    } else {
      SortSorts(s[1..], key);
      InsertSorts(s[0], Sort(s[1..], key), key);
      InsertPermutes(s[0], Sort(s[1..], key), key);
      assert s == [s[0]] + s[1..];
    }
    SameLength(Sort(s, key), s);
  }

  lemma NothingIsSorted<T>(s: seq<T>, key: T -> real)
    ensures s == [] ==> Sorted(s, key)
  {
  }

  lemma TailMultiset<T>(s: seq<T>)
    requires s != []
    ensures multiset(s[1..]) == multiset(s) - multiset{s[0]}
  {
    assert s == [s[0]] + s[1..];
  }

  /** Values that the order does not tell apart are equal. */
  ghost predicate Injective<T(!new)>(key: T -> real) {
    forall x, y :: key(x) == key(y) ==> x == y
  }

  lemma SameHead<T(!new)>(a: seq<T>, b: seq<T>, key: T -> real)
    requires Sorted(a, key) && Sorted(b, key) && multiset(a) == multiset(b) && a != [] && b != []
    requires Injective(key)
    ensures a[0] == b[0]
  {
    assert a[0] in multiset(b) && b[0] in multiset(a);
    var i :| 0 <= i < |b| && b[i] == a[0];
    var j :| 0 <= j < |a| && a[j] == b[0];
    assert key(b[0]) <= key(b[i]) && key(a[0]) <= key(a[j]);
  }

  lemma SortedTail<T>(s: seq<T>, key: T -> real)
    requires Sorted(s, key) && s != []
    ensures Sorted(s[1..], key)
  {
  }

  lemma TailsMatch<T>(a: seq<T>, b: seq<T>)
    requires a != [] && b != [] && a[0] == b[0] && multiset(a) == multiset(b)
    ensures multiset(a[1..]) == multiset(b[1..])
  {
    TailMultiset(a);
    TailMultiset(b);
  }

  lemma HeadAndTail<T>(a: seq<T>, b: seq<T>)
    requires a != [] && b != [] && a[0] == b[0] && a[1..] == b[1..]
    ensures a == b
  {
    assert a == [a[0]] + a[1..] && b == [b[0]] + b[1..];
  }

  /** The sorted arrangement is the only one. */
  lemma {:induction false} SortedUnique<T(!new)>(a: seq<T>, b: seq<T>, key: T -> real)
    requires Sorted(a, key) && Sorted(b, key) && multiset(a) == multiset(b)
    requires Injective(key)
    ensures a == b
  {
    hide Sorted, Injective;
    SameLength(a, b);
    if a == [] {
    } else {
      SameHead(a, b, key);
      SortedTail(a, key);
      SortedTail(b, key);
      TailsMatch(a, b);
      SortedUnique(a[1..], b[1..], key);
      HeadAndTail(a, b);
    }
  }

  function Self(x: real): real { x }
  function Real(n: int): real { n as real }

  /* ---- the valid samples ---- */

  // a failed iteration
  const ERR_DURATION: int := -1

  /** Integer division that rounds toward zero, for a positive divisor. */
  function Quot(a: int, b: int): int
    requires b > 0
  {
    if a >= 0 then a / b else -(-a / b)
  }

  /** A time in nanoseconds as milliseconds, with microsecond precision. */
  function Millis(t: int): real {
    Quot(t, 1000) as real / 1000.0
  }

  function Valid(times: seq<int>): seq<real> {
    if times == [] then [] else
      Valid(times[..|times| - 1]) +
      if times[|times| - 1] == ERR_DURATION then [] else [Millis(times[|times| - 1])]
  }

  function Errors(times: seq<int>): nat {
    multiset(times)[ERR_DURATION]
  }

  /** No iteration is lost: each is counted as an error or used as a sample. */
  lemma {:induction false} ErrorsAndSamples(times: seq<int>)
    ensures Errors(times) + |Valid(times)| == |times|
  {
    if times != [] {
      var init := times[..|times| - 1];
      ErrorsAndSamples(init);
      assert times == init + [times[|times| - 1]];
    }
  }

  lemma {:induction false} ValidAppend(a: seq<int>, b: seq<int>)
    ensures Valid(a + b) == Valid(a) + Valid(b)
  {
    hide Millis;
    if b == [] {
      assert a + b == a;
    } else {
      var init, last := b[..|b| - 1], if b[|b| - 1] == ERR_DURATION then [] else [Millis(b[|b| - 1])];
      ValidAppend(a, init);
      assert (a + b)[..|a + b| - 1] == a + init && (a + b)[|a + b| - 1] == b[|b| - 1];
      Text.Assoc(Valid(a), Valid(init), last);
    }
  }

  lemma {:induction false} ValidPermutes(a: seq<int>, b: seq<int>)
    requires multiset(a) == multiset(b)
    ensures multiset(Valid(a)) == multiset(Valid(b))
  {
    hide Valid, Millis;
    if a == [] {
      assert |multiset(b)| == 0;
      assert b == [];
    } else {
      var t := a[0];
      assert t in multiset(b);
      var k :| 0 <= k < |b| && b[k] == t;
      var p, q := b[..k], b[k + 1..];
      assert b == p + ([t] + q);
      MoveOut(p, t, q);
      HeadOut(a);
      TailMultiset(a);
      assert multiset(p + q) == multiset(b) - multiset{t};
      ValidPermutes(a[1..], p + q);
    }
  }

  lemma HeadOut(a: seq<int>)
    requires a != []
    ensures multiset(Valid(a)) == multiset(Valid([a[0]])) + multiset(Valid(a[1..]))
  {
    hide Valid, Millis;
    assert a == [a[0]] + a[1..];
    ValidAppend([a[0]], a[1..]);
  }

  lemma MoveOut(p: seq<int>, t: int, q: seq<int>)
    ensures multiset(Valid(p + ([t] + q))) == multiset(Valid([t])) + multiset(Valid(p + q))
    ensures multiset(p + ([t] + q)) == multiset{t} + multiset(p + q)
  {
    hide Valid, Millis;
    ValidAppend(p, q);
    ValidAppend([t], q);
    ValidAppend(p, [t] + q);
  }

  /* ---- sums ---- */

  function Sum(s: seq<real>): real {
    if s == [] then 0.0 else Sum(s[..|s| - 1]) + s[|s| - 1]
  }

  /** The sum of the squared deviations from `a`. */
  function SquaredDeviations(s: seq<real>, a: real): real {
    if s == [] then 0.0 else
      SquaredDeviations(s[..|s| - 1], a) + (s[|s| - 1] - a) * (s[|s| - 1] - a)
  }

  function Mean(s: seq<real>): real
    requires s != []
  {
    Sum(s) / |s| as real
  }

  predicate Between(s: seq<real>, lo: real, hi: real) {
    forall i :: 0 <= i < |s| ==> lo <= s[i] <= hi
  }

  lemma {:induction false} SumBounds(s: seq<real>, lo: real, hi: real)
    requires Between(s, lo, hi)
    ensures |s| as real * lo <= Sum(s) <= |s| as real * hi
  {
    if s != [] {
      var init := s[..|s| - 1];
      SumBounds(init, lo, hi);
      var n := |init| as real;
      assert |s| as real == n + 1.0;
      Distribute(n, lo);
      Distribute(n, hi);
      assert Sum(s) == Sum(init) + s[|s| - 1];
      assert |s| as real * lo == n * lo + lo && |s| as real * hi == n * hi + hi;
    }
  }

  lemma Distribute(n: real, x: real)
    ensures (n + 1.0) * x == n * x + x
  {
  }

  lemma MeanTimesCount(s: seq<real>)
    requires s != []
    ensures |s| as real * Mean(s) == Sum(s)
  {
  }

  lemma CancelCount(n: real, x: real, y: real)
    requires n > 0.0 && n * x <= n * y
    ensures x <= y
  {
    assert n * (x - y) == n * x - n * y;
    assert x - y > 0.0 ==> n * (x - y) > 0.0;
  }

  lemma MeanBounds(s: seq<real>, lo: real, hi: real)
    requires s != [] && Between(s, lo, hi)
    ensures lo <= Mean(s) <= hi
  {
    hide Mean;
    SumBounds(s, lo, hi);
    MeanTimesCount(s);
    CancelCount(|s| as real, lo, Mean(s));
    CancelCount(|s| as real, Mean(s), hi);
  }

  /** One sample's share of the bound: (hi - v)(v - lo) is not negative. */
  lemma OneDeviation(v: real, a: real, lo: real, hi: real)
    requires lo <= v <= hi
    ensures (v - a) * (v - a) <= (hi - a) * (a - lo) + (hi + lo - 2.0 * a) * (v - a)
  {
    var x, p, q := v - a, hi - a, a - lo;
    assert p - x == hi - v && x + q == v - lo;
    Expand(p, q, x);
    assert hi + lo - 2.0 * a == p - q;
  }

  lemma Expand(p: real, q: real, x: real)
    ensures p - x >= 0.0 && x + q >= 0.0 ==> x * x <= p * q + (p - q) * x
  {
    assert p - x >= 0.0 && x + q >= 0.0 ==> (p - x) * (x + q) >= 0.0;
    assert (p - x) * (x + q) == p * q + (p - q) * x - x * x;
  }

  /** The bound for `n` samples with sum `t`, and one sample `v` more. */
  lemma OneMoreSample(n: real, t: real, v: real, a: real, b: real, c: real)
    ensures (n + 1.0) * b + c * (t + v - (n + 1.0) * a) == n * b + c * (t - n * a) + (b + c * (v - a))
  {
    Distribute(n, b);
    Distribute(n, a);
    SplitProduct(c, t - n * a, v - a);
    assert t + v - (n + 1.0) * a == (t - n * a) + (v - a);
  }

  lemma {:induction false} DeviationsAbout(s: seq<real>, a: real, lo: real, hi: real)
    requires Between(s, lo, hi)
    ensures SquaredDeviations(s, a) <=
              |s| as real * ((hi - a) * (a - lo)) + (hi + lo - 2.0 * a) * (Sum(s) - |s| as real * a)
  {
    if s == [] {
    } else {
      var init, v := s[..|s| - 1], s[|s| - 1];
      DeviationsAbout(init, a, lo, hi);
      OneDeviation(v, a, lo, hi);
      assert |s| as real == |init| as real + 1.0;
      OneMoreSample(|init| as real, Sum(init), v, a, (hi - a) * (a - lo), hi + lo - 2.0 * a);
    }
  }

  lemma SplitProduct(c: real, x: real, y: real)
    ensures c * (x + y) == c * x + c * y
  {
  }

  /** The spread is at most that of a two-point distribution with the same mean and range. */
  lemma DeviationsBounded(s: seq<real>, lo: real, hi: real)
    requires s != [] && Between(s, lo, hi)
    ensures SquaredDeviations(s, Mean(s)) <= |s| as real * ((hi - Mean(s)) * (Mean(s) - lo))
  {
    hide Mean, SquaredDeviations;
    DeviationsAbout(s, Mean(s), lo, hi);
    MeanTimesCount(s);
  }

  /* ---- percentiles ---- */

  /** Conversion to an integer: rounding toward zero. */
  function Trunc(x: real): int {
    if x >= 0.0 then x.Floor else -((-x).Floor)
  }

  function Rank(n: nat, p: real): real {
    p / 100.0 * (n - 1) as real
  }

  /** Linear interpolation at a rank. */
  function At(s: seq<real>, rank: real): real
    requires s != [] && rank > -1.0
  {
    var lower := Trunc(rank);
    if lower + 1 >= |s| then s[|s| - 1]
    else s[lower] + (rank - lower as real) * (s[lower + 1] - s[lower])
  }

  /** The p-th percentile of sorted samples. A rank of -1 or less would be out of range. */
  function Percentile(s: seq<real>, p: real): real
    requires s != [] ==> Rank(|s|, p) > -1.0
  {
    if s == [] then 0.0 else At(s, Rank(|s|, p))
  }

  lemma ScaleIn(f: real, d: real)
    requires 0.0 <= f <= 1.0 && d >= 0.0
    ensures 0.0 <= f * d <= d
  {
  }

  lemma AtBounds(s: seq<real>, rank: real)
    requires s != [] && Sorted(s, Self) && rank >= 0.0
    ensures var l := Trunc(rank);
            0 <= l && (l < |s| ==> s[l] <= At(s, rank)) && (l + 1 < |s| ==> At(s, rank) <= s[l + 1])
  {
    var l := Trunc(rank);
    if l + 1 < |s| {
      var f, d := rank - l as real, s[l + 1] - s[l];
      assert Self(s[l]) <= Self(s[l + 1]);
      ScaleIn(f, d);
      assert At(s, rank) == s[l] + f * d;
    }
  }

  lemma ScaleMonotone(f: real, g: real, d: real)
    requires f <= g && d >= 0.0
    ensures f * d <= g * d
  {
  }

  lemma TruncMonotone(q: real, r: real)
    requires 0.0 <= q <= r
    ensures 0 <= Trunc(q) <= Trunc(r)
  {
  }

  lemma AtSameStep(s: seq<real>, q: real, r: real)
    requires s != [] && Sorted(s, Self) && 0.0 <= q <= r && Trunc(q) == Trunc(r)
    ensures At(s, q) <= At(s, r)
  {
    hide Trunc;
    var i := Trunc(q);
    TruncMonotone(q, r);
    if i + 1 < |s| {
      assert Self(s[i]) <= Self(s[i + 1]);
      ScaleMonotone(q - i as real, r - i as real, s[i + 1] - s[i]);
    }
  }

  lemma AtLast(s: seq<real>, rank: real)
    requires s != [] && rank >= 0.0 && Trunc(rank) + 1 >= |s|
    ensures At(s, rank) == s[|s| - 1]
  {
  }

  lemma AtMonotone(s: seq<real>, q: real, r: real)
    requires s != [] && Sorted(s, Self) && 0.0 <= q <= r
    ensures At(s, q) <= At(s, r)
  {
    hide At, Trunc;
    AtBounds(s, q);
    AtBounds(s, r);
    TruncMonotone(q, r);
    var i, j := Trunc(q), Trunc(r);
    if i == j {
      AtSameStep(s, q, r);
    } else if i + 1 >= |s| {
      AtLast(s, q);
      AtLast(s, r);
    } else {
      if j + 1 >= |s| { AtLast(s, r); }
      var k := if j < |s| then j else |s| - 1;
      assert i + 1 == k || Self(s[i + 1]) <= Self(s[k]);
    }
  }

  lemma RankMonotone(n: nat, p: real, q: real)
    requires n > 0 && 0.0 <= p <= q
    ensures 0.0 <= Rank(n, p) <= Rank(n, q)
  {
    ScaleMonotone(0.0, p / 100.0, (n - 1) as real);
    ScaleMonotone(p / 100.0, q / 100.0, (n - 1) as real);
  }

  /** Percentiles grow with p, from the smallest sample at 0 to the largest at 100. */
  lemma PercentileMonotone(s: seq<real>, p: real, q: real)
    requires s != [] && Sorted(s, Self) && 0.0 <= p <= q <= 100.0
    ensures Rank(|s|, p) >= 0.0 && Rank(|s|, q) >= 0.0
    ensures s[0] <= Percentile(s, p) <= Percentile(s, q) <= s[|s| - 1]
    ensures Percentile(s, 0.0) == s[0] && Percentile(s, 100.0) == s[|s| - 1]
  {
    hide At, Sorted;
    RankMonotone(|s|, 0.0, p);
    RankMonotone(|s|, p, q);
    RankMonotone(|s|, q, 100.0);
    Ends(s);
    AtMonotone(s, Rank(|s|, 0.0), Rank(|s|, p));
    AtMonotone(s, Rank(|s|, p), Rank(|s|, q));
    AtMonotone(s, Rank(|s|, q), Rank(|s|, 100.0));
  }

  lemma Ends(s: seq<real>)
    requires s != []
    ensures Rank(|s|, 0.0) == 0.0 && At(s, 0.0) == s[0]
    ensures Rank(|s|, 100.0) == (|s| - 1) as real && At(s, (|s| - 1) as real) == s[|s| - 1]
  {
    if |s| > 1 { assert 0.0 * (s[1] - s[0]) == 0.0; }
  }

  /* ---- medians of counters ---- */

  function MedianInts(s: seq<int>): int {
    if s == [] then 0 else
      var c, n := Sort(s, Real), |s|;
      SortSorts(s, Real);
      if n % 2 == 1 then c[n / 2] else Quot(c[n / 2 - 1] + c[n / 2], 2)
  }

  function Reals(s: seq<int>): (r: seq<real>)
    ensures |r| == |s|
    ensures forall i :: 0 <= i < |s| ==> r[i] == s[i] as real
  {
    seq(|s|, i requires 0 <= i < |s| => s[i] as real)
  }

  /** The two middle values, which are the same for an odd count. */
  function MiddleSum(s: seq<int>): int
    requires s != []
  {
    var c, n := Sort(s, Real), |s|;
    SortSorts(s, Real);
    if n % 2 == 1 then 2 * c[n / 2] else c[n / 2 - 1] + c[n / 2]
  }

  lemma MedianIsHalf(s: seq<int>)
    requires s != []
    ensures MedianInts(s) == Quot(MiddleSum(s), 2)
  {
    hide Sort;
    SortSorts(s, Real);
    if |s| % 2 == 1 { assert Quot(2 * Sort(s, Real)[|s| / 2], 2) == Sort(s, Real)[|s| / 2]; }
  }

  lemma HalfFloor(m: int)
    ensures (m as real / 2.0).Floor == m / 2
    ensures Quot(m, 2) == m / 2 <==> m >= 0 || m % 2 == 0
  {
    var f := (m as real / 2.0).Floor;
    assert f as real <= m as real / 2.0 < f as real + 1.0;
    assert 2 * f <= m < 2 * f + 2;
  }

  lemma MiddlePercentile(c: seq<int>)
    requires c != []
    ensures Rank(|c|, 50.0) >= 0.0
    ensures Percentile(Reals(c), 50.0) ==
              (if |c| % 2 == 1 then 2 * c[|c| / 2] else c[|c| / 2 - 1] + c[|c| / 2]) as real / 2.0
  {
    var n, r, k := |c|, Reals(c), |c| / 2;
    assert Rank(n, 50.0) == (n - 1) as real / 2.0;
    if n % 2 == 1 {
      assert Rank(n, 50.0) == k as real;
      AtWhole(r, k);
      assert (2 * c[k]) as real == 2.0 * c[k] as real;
    } else {
      assert Rank(n, 50.0) == (k - 1) as real + 0.5;
      AtHalf(r, k - 1);
      assert (c[k - 1] + c[k]) as real == c[k - 1] as real + c[k] as real;
    }
  }

  lemma AtWhole(s: seq<real>, k: nat)
    requires k < |s|
    ensures At(s, k as real) == s[k]
  {
    assert Trunc(k as real) == k;
    if k + 1 < |s| { assert 0.0 * (s[k + 1] - s[k]) == 0.0; }
  }

  lemma AtHalf(s: seq<real>, k: nat)
    requires k + 1 < |s|
    ensures At(s, k as real + 0.5) == (s[k] + s[k + 1]) / 2.0
  {
    assert Trunc(k as real + 0.5) == k;
  }

  /** The integer median is the floor of the 50th percentile exactly when the two middle values do
      not add up to a negative odd number. */
  lemma MedianIsFloor(s: seq<int>)
    requires s != []
    ensures |Sort(s, Real)| == |s| && Rank(|s|, 50.0) >= 0.0
    ensures MedianInts(s) == Percentile(Reals(Sort(s, Real)), 50.0).Floor <==>
              MiddleSum(s) >= 0 || MiddleSum(s) % 2 == 0
  {
    hide Percentile, Rank, Sort, Quot, MiddleSum, MedianInts;
    SortSorts(s, Real);
    var c := Sort(s, Real);
    MiddlePercentile(c);
    MiddleSumIs(s);
    HalfFloor(MiddleSum(s));
    MedianIsHalf(s);
  }

  lemma MiddleSumIs(s: seq<int>)
    requires s != [] && |Sort(s, Real)| == |s|
    ensures var c := Sort(s, Real);
            MiddleSum(s) == if |c| % 2 == 1 then 2 * c[|c| / 2] else c[|c| / 2 - 1] + c[|c| / 2]
  {
    hide Sort;
  }

  lemma MiddleIsNotNegative(s: seq<int>)
    requires s != [] && forall x :: x in s ==> x >= 0
    ensures MiddleSum(s) >= 0
  {
    hide Sort;
    SortSorts(s, Real);
    var c := Sort(s, Real);
    forall i | 0 <= i < |c| ensures c[i] >= 0 {
      assert c[i] in multiset(c);
      assert c[i] in s;
    }
  }

  /** So for counters it always is that floor. */
  lemma CounterMedianIsFloor(s: seq<int>)
    requires s != [] && forall x :: x in s ==> x >= 0
    ensures |Sort(s, Real)| == |s| && Rank(|s|, 50.0) >= 0.0
    ensures MedianInts(s) == Percentile(Reals(Sort(s, Real)), 50.0).Floor
  {
    hide Percentile, Rank, Sort, MiddleSum, MedianInts;
    MiddleIsNotNegative(s);
    MedianIsFloor(s);
  }

  /* ---- the summary ---- */

  datatype Counts = Counts(trips: seq<int>, readOps: seq<int>, writeOps: seq<int>,
                           cpu: seq<int>, allocBytes: seq<int>, allocs: seq<int>)

  /** `stddevSquared` is the square of the reported standard deviation. */
  datatype Result = Result(errors: nat, roundTrips: int, readOps: int, writeOps: int,
                           cpu: int, allocBytes: int, allocs: int,
                           avg: real, min: real, max: real, p50: real, p95: real, stddevSquared: real)

  /** Counters are reported only if trips or reads were recorded. */
  function Recorded(c: Counts): Counts {
    if |c.trips| > 0 || |c.readOps| > 0 then c else Counts([], [], [], [], [], [])
  }

  function Summary(times: seq<int>, counts: Counts): Result {
    var v := Sort(Valid(times), Self);
    if Valid(times) == [] then
      Result(Errors(times), 0, 0, 0, 0, 0, 0, 0.0, 0.0, 0.0, 0.0, 0.0, 0.0)
    else
      var n, c := |v|, Recorded(counts);
      SortSorts(Valid(times), Self);
      Result(Errors(times), MedianInts(c.trips), MedianInts(c.readOps), MedianInts(c.writeOps),
             MedianInts(c.cpu), MedianInts(c.allocBytes), MedianInts(c.allocs),
             Mean(v), v[0], v[n - 1], At(v, Rank(n, 50.0)), At(v, Rank(n, 95.0)),
             if n > 1 then SquaredDeviations(v, Mean(v)) / (n - 1) as real else 0.0)
  }

  /** The pass over the times. */
  method Collect(times: seq<int>) returns (valid: seq<real>, errors: nat)
    ensures valid == Valid(times) && errors == Errors(times)
  {
    hide Millis;
    valid, errors := [], 0;
    for i := 0 to |times|
      invariant valid == Valid(times[..i]) && errors == Errors(times[..i])
    {
      assert times[..i + 1] == times[..i] + [times[i]];
      assert times[..i + 1][..i] == times[..i];
      if times[i] == ERR_DURATION {
        errors := errors + 1;
      } else {
        valid := valid + [Millis(times[i])];
      }
    }
    assert times[..|times|] == times;
  }

  /** The passes over the samples, for the mean and for the deviations from it. */
  method MeanAndDeviations(v: seq<real>) returns (avg: real, variance: real)
    requires v != []
    ensures avg == Mean(v) && variance == SquaredDeviations(v, avg)
  {
    var n := |v|;
    var sum := 0.0;
    for i := 0 to n
      invariant sum == Sum(v[..i])
    {
      assert v[..i + 1][..i] == v[..i];
      sum := sum + v[i];
    }
    assert v[..n] == v;
    avg := sum / n as real;
    variance := 0.0;
    for i := 0 to n
      invariant variance == SquaredDeviations(v[..i], avg)
    {
      assert v[..i + 1][..i] == v[..i];
      var d := v[i] - avg;
      variance := variance + d * d;
    }
  }

  method Summarize(times: seq<int>, counts: Counts) returns (r: Result)
    ensures r == Summary(times, counts)
  {
    hide Sort, MedianInts, At, Valid, Mean, SquaredDeviations, Rank;
    var valid, errors := Collect(times);
    if |valid| == 0 {
      return Result(errors, 0, 0, 0, 0, 0, 0, 0.0, 0.0, 0.0, 0.0, 0.0, 0.0);
    }
    SortSorts(valid, Self);
    var v := Sort(valid, Self);
    var n := |v|;
    var avg, variance := MeanAndDeviations(v);
    var stddevSquared := 0.0;
    if n > 1 { stddevSquared := variance / (n - 1) as real; }
    var c := Counts([], [], [], [], [], []);
    if |counts.trips| > 0 || |counts.readOps| > 0 { c := counts; }
    RankMonotone(n, 0.0, 50.0);
    RankMonotone(n, 0.0, 95.0);
    r := Result(errors, MedianInts(c.trips), MedianInts(c.readOps), MedianInts(c.writeOps),
                MedianInts(c.cpu), MedianInts(c.allocBytes), MedianInts(c.allocs),
                avg, v[0], v[n - 1], At(v, Rank(n, 50.0)), At(v, Rank(n, 95.0)), stddevSquared);
  }

  /** The order in which iterations finish does not matter. */
  lemma SummaryPermutes(a: seq<int>, b: seq<int>, counts: Counts)
    requires multiset(a) == multiset(b)
    ensures Summary(a, counts) == Summary(b, counts)
  {
    hide Sort, MedianInts, At, Valid, Mean, SquaredDeviations, Rank;
    var va, vb := Valid(a), Valid(b);
    ValidPermutes(a, b);
    SortSorts(va, Self);
    SortSorts(vb, Self);
    SortedUnique(Sort(va, Self), Sort(vb, Self), Self);
    assert |multiset(va)| == |multiset(vb)|;
  }

  /** What the numbers of a summary say about each other. */
  lemma SummaryBounds(times: seq<int>, counts: Counts)
    requires Valid(times) != []
    ensures var r, n := Summary(times, counts), |Valid(times)|;
            && r.errors + n == |times|
            && r.min <= r.p50 <= r.p95 <= r.max && r.min <= r.avg <= r.max
            && (n > 1 ==> (n - 1) as real * r.stddevSquared <= n as real * ((r.max - r.avg) * (r.avg - r.min)))
    ensures forall x :: x in Valid(times) ==> Summary(times, counts).min <= x <= Summary(times, counts).max
  {
    hide Sort, MedianInts, At, Valid, Mean, SquaredDeviations, Rank;
    ErrorsAndSamples(times);
    var s := Valid(times);
    SortSorts(s, Self);
    var v := Sort(s, Self);
    var n := |v|;
    PercentileMonotone(v, 50.0, 95.0);
    SortedBetween(v);
    MeanBounds(v, v[0], v[n - 1]);
    DeviationsBounded(v, v[0], v[n - 1]);
    if n > 1 { DivideBack(SquaredDeviations(v, Mean(v)), (n - 1) as real); }
    forall x | x in s ensures v[0] <= x <= v[n - 1] {
      assert x in multiset(v);
      var i :| 0 <= i < n && v[i] == x;
    }
  }

  lemma SortedBetween(v: seq<real>)
    requires v != [] && Sorted(v, Self)
    ensures Between(v, v[0], v[|v| - 1])
  {
    forall i | 0 <= i < |v| ensures v[0] <= v[i] <= v[|v| - 1] {
      assert i > 0 ==> Self(v[0]) <= Self(v[i]);
      assert i < |v| - 1 ==> Self(v[i]) <= Self(v[|v| - 1]);
    }
  }

  lemma DivideBack(x: real, d: real)
    requires d > 0.0
    ensures d * (x / d) == x
  {
  }

  /* ---- what each number of a summary is ---- */

  /** How many values of a list lie below and above a value. */
  datatype Sides = Sides(below: nat, above: nat)

  function SidesOf(s: seq<int>, m: int): Sides {
    if s == [] then Sides(0, 0) else
      var t, v := SidesOf(s[1..], m), s[0];
      Sides(t.below + if v < m then 1 else 0, t.above + if v > m then 1 else 0)
  }

  /** At most half of the values lie below, and at most half above; of no values it is 0. */
  predicate IsMedian(m: int, s: seq<int>) {
    if s == [] then m == 0 else 2 * SidesOf(s, m).below <= |s| && 2 * SidesOf(s, m).above <= |s|
  }

  lemma {:induction false} SidesInsert(x: int, s: seq<int>, m: int)
    ensures SidesOf(Insert(x, s, Real), m) == SidesOf([x] + s, m)
  {
    assert ([x] + s)[1..] == s;
    if s != [] && Real(x) > Real(s[0]) {
      SidesInsert(x, s[1..], m);
      var rest := Insert(x, s[1..], Real);
      assert ([s[0]] + rest)[1..] == rest && ([x] + s[1..])[1..] == s[1..];
    }
  }

  lemma {:induction false} SidesSort(s: seq<int>, m: int)
    ensures SidesOf(Sort(s, Real), m) == SidesOf(s, m)
  {
    if s == [] {
    } else {
      SidesSort(s[1..], m);
      var rest := Sort(s[1..], Real);
      SidesInsert(s[0], rest, m);
      assert ([s[0]] + rest)[1..] == rest;
    }
  }

  lemma {:induction false} SidesSplit(c: seq<int>, m: int, k: nat)
    requires k <= |c|
    ensures (forall i :: k <= i < |c| ==> c[i] >= m) ==> SidesOf(c, m).below <= k
    ensures (forall i :: 0 <= i < k ==> c[i] <= m) ==> SidesOf(c, m).above <= |c| - k
    decreases |c|
  {
    if c == [] {
    } else {
      var rest := c[1..];
      SidesSplit(rest, m, if k == 0 then 0 else k - 1);
      assert forall i :: 0 <= i < |rest| ==> rest[i] == c[i + 1];
    }
  }

  lemma SortedInts(c: seq<int>, i: nat, j: nat)
    requires Sorted(c, Real) && i <= j < |c|
    ensures c[i] <= c[j]
  {
    assert i < j ==> Real(c[i]) <= Real(c[j]);
  }

  /** Halving the sum of two integers, rounding toward zero, stays between them. */
  lemma MiddleOfTwo(a: int, b: int)
    requires a <= b
    ensures a <= Quot(a + b, 2) <= b
  {
  }

  /** A middle value of a sorted list has at most half of the list on either side. */
  lemma SortedMiddle(c: seq<int>, m: int)
    requires Sorted(c, Real) && c != []
    requires if |c| % 2 == 1 then m == c[|c| / 2] else c[|c| / 2 - 1] <= m <= c[|c| / 2]
    ensures 2 * SidesOf(c, m).below <= |c| && 2 * SidesOf(c, m).above <= |c|
  {
    hide Sorted, SidesOf;
    var k := |c| / 2;
    var l := if |c| % 2 == 1 then k else k - 1;
    forall i | k <= i < |c| ensures c[i] >= m { SortedInts(c, k, i); }
    forall i | 0 <= i < l + 1 ensures c[i] <= m { SortedInts(c, i, l); }
    SidesSplit(c, m, k);
    SidesSplit(c, m, l + 1);
  }

  lemma MedianIsMedian(s: seq<int>)
    ensures IsMedian(MedianInts(s), s)
  {
    hide Sort, Quot, Sorted, SidesOf;
    if s != [] {
      SortSorts(s, Real);
      var c := Sort(s, Real);
      SidesSort(s, MedianInts(s));
      if |s| % 2 == 0 {
        SortedInts(c, |s| / 2 - 1, |s| / 2);
        MiddleOfTwo(c[|s| / 2 - 1], c[|s| / 2]);
      }
      SortedMiddle(c, MedianInts(s));
    }
  }

  lemma {:induction false} AllOnOneSide(s: seq<int>, m: int, x: int)
    requires forall i :: 0 <= i < |s| ==> s[i] == x
    ensures x < m ==> SidesOf(s, m).below == |s|
    ensures x > m ==> SidesOf(s, m).above == |s|
  {
    if s == [] {
    } else {
      AllOnOneSide(s[1..], m, x);
    }
  }

  /** The median of a list of one value only is that value. */
  lemma MedianOfEqual(m: int, s: seq<int>, x: int)
    requires s != [] && IsMedian(m, s) && forall i :: 0 <= i < |s| ==> s[i] == x
    ensures m == x
  {
    AllOnOneSide(s, m, x);
  }

  /** Each counter of a summary is a median of its own list; but if neither trips nor reads were recorded, all
      counters are 0. */
  lemma CountersAreMedians(times: seq<int>, counts: Counts)
    requires Valid(times) != []
    ensures var r := Summary(times, counts);
            if counts.trips == [] && counts.readOps == [] then
              r.roundTrips == r.readOps == r.writeOps == r.cpu == r.allocBytes == r.allocs == 0
            else
              IsMedian(r.roundTrips, counts.trips) && IsMedian(r.readOps, counts.readOps) &&
              IsMedian(r.writeOps, counts.writeOps) && IsMedian(r.cpu, counts.cpu) &&
              IsMedian(r.allocBytes, counts.allocBytes) && IsMedian(r.allocs, counts.allocs)
  {
    hide Sort, IsMedian, At, Valid, Mean, SquaredDeviations, Rank, MedianInts;
    SortSorts(Valid(times), Self);
    MedianIsMedian(counts.trips);
    MedianIsMedian(counts.readOps);
    MedianIsMedian(counts.writeOps);
    MedianIsMedian(counts.cpu);
    MedianIsMedian(counts.allocBytes);
    MedianIsMedian(counts.allocs);
    MedianOfNone();
  }

  lemma MedianOfNone()
    ensures MedianInts([]) == 0
  {
  }

  /** If every iteration failed, all are counted as errors and every other number is 0. */
  lemma AllFailed(times: seq<int>, counts: Counts)
    requires forall i :: 0 <= i < |times| ==> times[i] == -1
    ensures Summary(times, counts) == Result(|times|, 0, 0, 0, 0, 0, 0, 0.0, 0.0, 0.0, 0.0, 0.0, 0.0)
  {
    ErrorsAndSamples(times);
    NoneValid(times);
  }

  lemma {:induction false} NoneValid(times: seq<int>)
    requires forall i :: 0 <= i < |times| ==> times[i] == -1
    ensures Valid(times) == []
  {
    if times == [] {
    } else {
      NoneValid(times[..|times| - 1]);
    }
  }

  /** A time of `k` microseconds, and whatever nanoseconds are left over, counts as `k` thousandths. */
  lemma TimeInMillis(k: nat, rest: nat)
    requires rest < 1000
    ensures Valid([1000 * k + rest]) == [k as real / 1000.0]
  {
    assert [1000 * k + rest][..0] == [];
    assert (1000 * k + rest) / 1000 == k;
    assert [] + [Millis(1000 * k + rest)] == [Millis(1000 * k + rest)];
  }

  /** A single iteration is every number of its summary, in milliseconds. */
  lemma SingleIteration(k: nat, rest: nat, counts: Counts)
    requires rest < 1000
    ensures var r, x := Summary([1000 * k + rest], counts), k as real / 1000.0;
            r.errors == 0 && r.min == r.avg == r.max == r.p50 == r.p95 == x && r.stddevSquared == 0.0
  {
    hide MedianInts, Valid, At, Rank;
    var x := k as real / 1000.0;
    TimeInMillis(k, rest);
    ErrorsAndSamples([1000 * k + rest]);
    SortOne(x);
    Ranks(1);
    OnlySample(x);
  }

  lemma SortOne(x: real)
    ensures Sort([x], Self) == [x]
  {
    assert [x][1..] == [];
  }

  lemma SumsAppend(s: seq<real>, v: real, a: real)
    ensures Sum(s + [v]) == Sum(s) + v
    ensures SquaredDeviations(s + [v], a) == SquaredDeviations(s, a) + (v - a) * (v - a)
  {
    assert (s + [v])[..|s + [v]| - 1] == s;
  }

  lemma OnlySample(x: real)
    ensures Mean([x]) == x && forall rank: real :: rank >= 0.0 ==> At([x], rank) == x
  {
    SumsAppend([], x, x);
    assert [] + [x] == [x];
  }

  lemma Ranks(n: nat)
    requires n > 0
    ensures Rank(n, 50.0) >= 0.0 && Rank(n, 95.0) >= 0.0
  {
    RankMonotone(n, 0.0, 50.0);
    RankMonotone(n, 0.0, 95.0);
  }

  /** Two iterations: the mean and the median are halfway between them, and the variance, with one degree of
      freedom, is half the square of their distance. */
  lemma TwoIterations(j: nat, k: nat, counts: Counts)
    ensures var r, a, b := Summary([1000 * j, 1000 * k], counts), j as real / 1000.0, k as real / 1000.0;
            r.avg == (a + b) / 2.0 == r.p50 && r.stddevSquared == (a - b) * (a - b) / 2.0
  {
    hide Summary, Valid;
    TimeInMillis(j, 0);
    TimeInMillis(k, 0);
    assert [1000 * j, 1000 * k] == [1000 * j] + [1000 * k];
    ValidAppend([1000 * j], [1000 * k]);
    SummaryOfTwo([1000 * j, 1000 * k], counts, j as real / 1000.0, k as real / 1000.0);
  }

  lemma SummaryOfTwo(times: seq<int>, counts: Counts, a: real, b: real)
    requires Valid(times) == [a] + [b]
    ensures var r := Summary(times, counts);
            r.avg == (a + b) / 2.0 == r.p50 && r.stddevSquared == (a - b) * (a - b) / 2.0
  {
    hide MedianInts, Valid, At, Rank, Mean, SquaredDeviations, Sort, Sorted;
    assert [a] + [b] == [a, b];
    SortSorts([a, b], Self);
    SortTwo(a, b);
    var lo, hi := if a <= b then a else b, if a <= b then b else a;
    TwoSamples(lo, hi);
    Swapped(a, b);
    assert lo + hi == a + b && (lo - hi) * (lo - hi) == (a - b) * (a - b);
    OverOne(SquaredDeviations([lo, hi], Mean([lo, hi])));
  }

  lemma OverOne(x: real)
    ensures x / (2 - 1) as real == x
  {
  }

  lemma SortTwo(a: real, b: real)
    ensures Sort([a, b], Self) == if a <= b then [a, b] else [b, a]
  {
    SortOne(b);
    assert [a, b][1..] == [b] && [b][1..] == [];
    assert Sort([a, b], Self) == Insert(a, [b], Self);
  }

  lemma Swapped(a: real, b: real)
    ensures (a - b) * (a - b) == (b - a) * (b - a)
  {
  }

  lemma TwoSamples(a: real, b: real)
    ensures Mean([a, b]) == (a + b) / 2.0
    ensures SquaredDeviations([a, b], Mean([a, b])) == (a - b) * (a - b) / 2.0
    ensures Rank(2, 50.0) == 0.5 && At([a, b], 0.5) == (a + b) / 2.0
  {
    var m := (a + b) / 2.0;
    assert [] + [a] == [a] && [a] + [b] == [a, b];
    SumsAppend([], a, m);
    SumsAppend([a], b, m);
    assert a - m == (a - b) / 2.0 && b - m == -((a - b) / 2.0);
    HalfSquares((a - b) / 2.0);
    AtHalf([a, b], 0);
  }

  lemma HalfSquares(h: real)
    ensures h * h + (-h) * (-h) == (2.0 * h) * (2.0 * h) / 2.0
  {
  }

  /** Of 21 samples in order, the 50th percentile is the 11th and the 95th is the 20th. */
  lemma TwentyOneIterations(times: seq<int>, counts: Counts, v: seq<real>)
    requires |Valid(times)| == |v| == 21 && Sorted(v, Self) && multiset(v) == multiset(Valid(times))
    ensures var r := Summary(times, counts);
            r.min == v[0] && r.p50 == v[10] && r.p95 == v[19] && r.max == v[20]
  {
    hide Sort, Sorted, MedianInts, At, Valid, Mean, SquaredDeviations;
    SortSorts(Valid(times), Self);
    SortedUnique(Sort(Valid(times), Self), v, Self);
    assert Rank(21, 50.0) == 10.0 && Rank(21, 95.0) == 19.0;
    AtWhole(v, 10);
    AtWhole(v, 19);
  }
}
