/** Order statistics of latency samples. */
module Statistics {

  import opened Sorting

  predicate Less(a: nat, b: nat) {
    a < b
  }

  lemma LessIsAnOrder()
    ensures WeakOrder(Less)
  {
  }

  /** How many samples are at most `v`. */
  function CountUpTo(s: seq<nat>, v: nat): (n: nat)
    ensures n <= |s|
  {
    if s == [] then 0 else (if s[0] <= v then 1 else 0) + CountUpTo(s[1..], v)
  }

  /** The nearest-rank index for `p` percent of `n` samples. */
  function Rank(n: nat, p: nat): (k: nat)
    requires n > 0
    ensures 1 <= k <= n
  {
    var k := (p * n + 99) / 100;
    if k < 1 then 1 else if k > n then n else k
  }

  function Percentile(samples: seq<nat>, p: nat): nat {
    if samples == [] then 0
    else
      LessIsAnOrder();
      SortSorts(samples, Less);
      Sort(samples, Less)[Rank(|samples|, p) - 1]
  }

  lemma {:induction false} CountOfInsert(s: seq<nat>, x: nat, v: nat)
    ensures CountUpTo(Insert(s, x, Less), v) == CountUpTo(s, v) + (if x <= v then 1 else 0)
  {
    if s == [] || x < s[0] {
      assert ([x] + s)[1..] == s;
    } else {
      CountOfInsert(s[1..], x, v);
    }
  }

  lemma {:induction false} CountOfLast(s: seq<nat>, x: nat, v: nat)
    ensures CountUpTo(s + [x], v) == CountUpTo(s, v) + (if x <= v then 1 else 0)
  {
    if s != [] {
      CountOfLast(s[1..], x, v);
      assert (s + [x])[1..] == s[1..] + [x];
    }
  }

  lemma {:induction false} CountOfSort(s: seq<nat>, v: nat)
    ensures CountUpTo(Sort(s, Less), v) == CountUpTo(s, v)
  {
    if s != [] {
      var init, last := s[..|s| - 1], s[|s| - 1];
      CountOfSort(init, v);
      CountOfInsert(Sort(init, Less), last, v);
      CountOfLast(init, last, v);
      assert s == init + [last];
    }
  }

  /** In sorted order, the k-th sample is at most `v` just when at least k are. */
  lemma {:induction false} RankByCount(s: seq<nat>, k: nat, v: nat)
    requires InOrder(s, Less) && 1 <= k <= |s|
    ensures s[k - 1] <= v <==> CountUpTo(s, v) >= k
  {
    if k > 1 {
      RankByCount(s[1..], k - 1, v);
    } else if s[0] > v {
      NoneUpTo(s, v);
    }
  }

  lemma {:induction false} NoneUpTo(s: seq<nat>, v: nat)
    requires forall i :: 0 <= i < |s| ==> s[i] > v
    ensures CountUpTo(s, v) == 0
  {
    if s != [] {
      NoneUpTo(s[1..], v);
    }
  }

  /** The nearest-rank percentile is a sample, and it is the least value that
      at least its rank of samples do not exceed. */
  lemma PercentileIsNearestRank(s: seq<nat>, p: nat, v: nat)
    requires s != []
    ensures Percentile(s, p) in s
    ensures Percentile(s, p) <= v <==> CountUpTo(s, v) >= Rank(|s|, p)
  {
    hide Sort, CountUpTo;
    LessIsAnOrder();
    SortSorts(s, Less);
    RankByCount(Sort(s, Less), Rank(|s|, p), v);
    CountOfSort(s, v);
    assert Percentile(s, p) in multiset(Sort(s, Less));
  }

  lemma RankExactly(n: nat, p: nat, count: nat)
    requires n > 0 && p <= 100
    ensures count >= Rank(n, p) <==> count > 0 && 100 * count >= p * n
  {
    assert p * n <= 100 * n;
    var x := p * n;
    assert (x + 99) / 100 <= count <==> x <= 100 * count;
  }

  /** The percentile is at most `v` exactly when some sample is, and so many percent
      of all the samples are; without samples it is zero. */
  lemma PercentileExactly(s: seq<nat>, p: nat, v: nat)
    requires p <= 100
    ensures s == [] ==> Percentile(s, p) == 0
    ensures s != [] ==>
              && Percentile(s, p) in s
              && (Percentile(s, p) <= v <==> CountUpTo(s, v) > 0 && 100 * CountUpTo(s, v) >= p * |s|)
  {
    hide CountUpTo, Rank, Sort;
    if s != [] {
      PercentileIsNearestRank(s, p, v);
      RankExactly(|s|, p, CountUpTo(s, v));
    }
  }

  ghost predicate NoneLater(a: seq<nat>, b: seq<nat>) {
    |a| == |b| && forall i :: 0 <= i < |a| ==> a[i] <= b[i]
  }

  lemma {:induction false} CountIsAntitone(a: seq<nat>, b: seq<nat>, v: nat)
    requires NoneLater(a, b)
    ensures CountUpTo(a, v) >= CountUpTo(b, v)
  {
    if a != [] {
      CountIsAntitone(a[1..], b[1..], v);
    }
  }

  /** Samples that are nowhere later have no later percentile, for every p. */
  lemma PercentileIsMonotone(a: seq<nat>, b: seq<nat>, p: nat)
    requires NoneLater(a, b)
    ensures Percentile(a, p) <= Percentile(b, p)
  {
    if a != [] {
      var v := Percentile(b, p);
      PercentileIsNearestRank(b, p, v);
      PercentileIsNearestRank(a, p, v);
      CountIsAntitone(a, b, v);
    }
  }

  function Total(s: seq<nat>): nat {
    if s == [] then 0 else Total(s[..|s| - 1]) + s[|s| - 1]
  }

  lemma {:induction false} TotalIsMonotone(a: seq<nat>, b: seq<nat>)
    requires NoneLater(a, b)
    ensures Total(a) <= Total(b)
  {
    if a != [] {
      TotalIsMonotone(a[..|a| - 1], b[..|b| - 1]);
    }
  }

  /** Larger by more than the experiment's tolerance, one part in ten thousand. */
  predicate Slower(oracle: nat, floor: nat) {
    10_000 * oracle > 10_001 * floor
  }
}
