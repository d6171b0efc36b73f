/** The gas gauge (ethgas/ethgas.go, ethgas/ema.go): a histogram of a block's prices, trimmed of
    outliers, sampled at three percentiles, and smoothed by four coupled moving averages. */
module GasGauge {
  import opened Wrappers

  const ONE_GWEI: nat := 1_000_000_000
  const BUCKET_RANGE: nat := 5 * ONE_GWEI
  const MAX_BUCKETS: nat := 1000

  datatype Bucket = Bucket(value: nat, count: nat)

  function Max(a: nat, b: nat): (r: nat)
  {
    if a >= b then a else b
  }

  // ---- buckets and samples ----------------------------------------------------------------

  /** The lower bound of the bucket that price v falls in. */
  function BucketValue(low: nat, bucketCount: nat, v: nat): (r: nat)
    requires bucketCount > 0 && low <= v
    ensures low <= r <= v && (r - low) % BUCKET_RANGE == 0
    ensures v < r + BUCKET_RANGE || r == low + (bucketCount - 1) * BUCKET_RANGE
  {
    var i := (v - low) / BUCKET_RANGE;
    low + (if i >= bucketCount then bucketCount - 1 else i) * BUCKET_RANGE
  }

  function BucketCount(low: nat, high: nat): (r: nat)
    requires low <= high
    ensures 0 < r <= MAX_BUCKETS && (r < MAX_BUCKETS ==> high < low + r * BUCKET_RANGE)
    ensures low + (r - 1) * BUCKET_RANGE <= high
  {
    var n := (high - low) / BUCKET_RANGE + 1;
    if n > MAX_BUCKETS then MAX_BUCKETS else n
  }

  /** low and high are the least and the greatest price. */
  ghost predicate Bounds(list: seq<nat>, low: nat, high: nat)
  {
    low in list && high in list && forall i :: 0 <= i < |list| ==> low <= list[i] <= high
  }

  /** The prices, each rounded down to its bucket. */
  function Rounded(list: seq<nat>, low: nat, bucketCount: nat): (r: seq<nat>)
    requires bucketCount > 0 && forall i :: 0 <= i < |list| ==> low <= list[i]
    ensures |r| == |list|
    ensures forall i :: 0 <= i < |list| ==> r[i] == BucketValue(low, bucketCount, list[i])
  {
    seq(|list|, i requires 0 <= i < |list| => BucketValue(low, bucketCount, list[i]))
  }

  /** The samples of one bucket. */
  ghost function Copies(b: Bucket): (m: multiset<nat>)
  {
    multiset{}[b.value := b.count]
  }

  /** The samples of a histogram, as a multiset. */
  ghost function Samples(h: seq<Bucket>): (m: multiset<nat>)
  {
    if h == [] then multiset{} else Copies(h[0]) + Samples(h[1..])
  }

  lemma {:induction false} SamplesAppend(h: seq<Bucket>, b: Bucket)
    ensures Samples(h + [b]) == Samples(h) + Copies(b)
    decreases |h|
  {
    if h != [] {
      assert (h + [b])[1..] == h[1..] + [b];
      SamplesAppend(h[1..], b);
    } else {
      assert [b][1..] == [];
      assert h + [b] == [b];
    }
  }

  predicate ByValue(h: seq<Bucket>)
  {
    forall i :: 0 <= i < |h| - 1 ==> h[i].value <= h[i + 1].value
  }

  predicate Counted(h: seq<Bucket>)
  {
    forall i :: 0 <= i < |h| ==> h[i].count > 0
  }

  /** Place b before the first bucket of a greater value. */
  function InsertByValue(b: Bucket, h: seq<Bucket>): (r: seq<Bucket>)
    requires ByValue(h)
    ensures |r| == |h| + 1 && (r[0] == b || (h != [] && r[0] == h[0])) && ByValue(r)
  {
    if h == [] || b.value < h[0].value then [b] + h
    else [h[0]] + InsertByValue(b, h[1..])
  }

  /** sort.Slice(h, h.sortByValue). */
  function SortByValue(h: seq<Bucket>): (r: seq<Bucket>)
    ensures ByValue(r) && |r| == |h|
  {
    if h == [] then [] else InsertByValue(h[0], SortByValue(h[1..]))
  }

  lemma Regroup(a: multiset<nat>, b: multiset<nat>, c: multiset<nat>)
    ensures a + (b + c) == b + (a + c)
  {
  }

  lemma {:induction false} InsertKeepsSamples(b: Bucket, h: seq<Bucket>)
    requires ByValue(h)
    ensures Samples(InsertByValue(b, h)) == Copies(b) + Samples(h)
    decreases |h|
  {
    var r := InsertByValue(b, h);
    if h == [] || b.value < h[0].value {
      assert r[1..] == h;
    } else {
      assert r[0] == h[0] && r[1..] == InsertByValue(b, h[1..]);
      InsertKeepsSamples(b, h[1..]);
      Regroup(Copies(h[0]), Copies(b), Samples(h[1..]));
    }
  }

  lemma {:induction false} InsertKeepsCounts(b: Bucket, h: seq<Bucket>)
    requires ByValue(h) && b.count > 0 && Counted(h)
    ensures Counted(InsertByValue(b, h))
    decreases |h|
  {
    if h != [] && b.value >= h[0].value {
      InsertKeepsCounts(b, h[1..]);
    }
  }

  lemma {:induction false} SortKeepsSamples(h: seq<Bucket>)
    ensures Samples(SortByValue(h)) == Samples(h) && (Counted(h) ==> Counted(SortByValue(h)))
    decreases |h|
  {
    if h != [] {
      SortKeepsSamples(h[1..]);
      InsertKeepsSamples(h[0], SortByValue(h[1..]));
      if Counted(h) {
        InsertKeepsCounts(h[0], SortByValue(h[1..]));
      }
    }
  }

  // ---- the histogram ----------------------------------------------------------------------

  /** h counts the samples m, in order of value. */
  ghost predicate IsHistogram(h: seq<Bucket>, m: multiset<nat>)
  {
    ByValue(h) && Counted(h) && Samples(h) == m
  }

  method MinMax(list: seq<nat>) returns (low: nat, high: nat)
    requires |list| > 0
    ensures Bounds(list, low, high)
  {
    low, high := list[0], list[0];
    for i := 0 to |list|
      invariant low in list && high in list && low <= high
      invariant forall j :: 0 <= j < i ==> low <= list[j] <= high
    {
      if list[i] < low { low := list[i]; }
      if list[i] > high { high := list[i]; }
    }
  }

  /** The buckets by value: what is counted so far. */
  ghost predicate Tallies(buckets: map<nat, nat>, m: multiset<nat>)
  {
    forall v: nat :: (v in buckets <==> m[v] > 0) && (v in buckets ==> buckets[v] == m[v])
  }

  method Tally(list: seq<nat>, low: nat, bucketCount: nat) returns (buckets: map<nat, nat>)
    requires bucketCount > 0 && forall i :: 0 <= i < |list| ==> low <= list[i]
    ensures Tallies(buckets, multiset(Rounded(list, low, bucketCount)))
  {
    ghost var all := Rounded(list, low, bucketCount);
    buckets := map[];
    for i := 0 to |list|
      invariant Tallies(buckets, multiset(all[..i]))
    {
      var key := BucketValue(low, bucketCount, list[i]);
      assert all[..i + 1] == all[..i] + [key];
      if key in buckets {
        buckets := buckets[key := buckets[key] + 1];
      } else {
        buckets := buckets[key := 1];
      }
    }
    assert all[..|list|] == all;
  }

  /** The buckets as a list, in the arbitrary order of map iteration. */
  method ToSlice(buckets: map<nat, nat>, ghost m: multiset<nat>) returns (h: seq<Bucket>)
    requires Tallies(buckets, m)
    ensures Counted(h) && Samples(h) == m
  {
    h := [];
    var rest := buckets.Keys;
    while rest != {}
      invariant rest <= buckets.Keys && Counted(h)
      invariant forall v: nat :: Samples(h)[v] == if v in rest then 0 else m[v]
    {
      var v :| v in rest;
      SamplesAppend(h, Bucket(v, buckets[v]));
      h := h + [Bucket(v, buckets[v])];
      rest := rest - {v};
    }
  }

  /** Three quarters of the buckets are safe from trimming. */
  function Safe(n: nat): (x: nat)
  {
    n * 3 / 4
  }

  /** r is s cut before the first jump to twice the value, looking at the last quarter only. */
  ghost predicate Trimmed(s: seq<Bucket>, r: seq<Bucket>)
  {
    && |r| <= |s| && r == s[..|r|] && (s != [] ==> r != []) && Safe(|s|) <= |r|
    && (forall i :: Safe(|s|) <= i < |r| && i > 0 ==> s[i].value < 2 * s[i - 1].value)
    && (0 < |r| < |s| ==> s[|r|].value >= 2 * s[|r| - 1].value)
  }

  method TrimOutliers(h: seq<Bucket>) returns (h3: seq<Bucket>)
    ensures Trimmed(SortByValue(h), h3)
  {
    var h2 := SortByValue(h);
    h3 := CutAtJump(h2);
  }

  /** The rest of trimOutliers, on the sorted copy. */
  method CutAtJump(h2: seq<Bucket>) returns (h3: seq<Bucket>)
    ensures Trimmed(h2, h3)
  {
    if |h2| == 0 {
      return h2;
    }
    var x := Safe(|h2|);
    if x == |h2| || x == 0 {
      return h2;
    }
    h3 := h2[..x];
    var last := h2[x - 1].value;
    for i := x to |h2|
      invariant h3 == h2[..i] && last == h2[i - 1].value
      invariant forall k :: x <= k < i ==> h2[k].value < 2 * h2[k - 1].value
    {
      var v := h2[i].value;
      if v >= 2 * last {
        return;
      }
      h3 := h3 + [h2[i]];
      last := v;
    }
  }

  /** gasPriceHistogram before trimming counts every price once, in the bucket that holds it. */
  method GasPriceHistogram(list: seq<nat>) returns (hist2: seq<Bucket>, ghost h: seq<Bucket>, ghost low: nat, ghost high: nat)
    ensures list == [] ==> hist2 == []
    ensures list != [] ==>
              && Bounds(list, low, high) && Trimmed(h, hist2)
              && IsHistogram(h, multiset(Rounded(list, low, BucketCount(low, high))))
  {
    if |list| == 0 {
      return [], [], 0, 0;
    }
    var low', high' := MinMax(list);
    low, high := low', high';
    ghost var m := multiset(Rounded(list, low', BucketCount(low', high')));
    var buckets := Tally(list, low', BucketCount(low', high'));
    var hist := ToSlice(buckets, m);
    hist2 := TrimOutliers(hist);
    h := SortByValue(hist);
    SortKeepsSamples(hist);
  }

  // ---- percentiles ------------------------------------------------------------------------

  /** The samples one by one, in the order of the buckets. */
  ghost function Expand(h: seq<Bucket>): (r: seq<nat>)
    ensures |r| == Total(h)
  {
    if h == [] then [] else seq(h[0].count, _ => h[0].value) + Expand(h[1..])
  }

  function Total(h: seq<Bucket>): (n: nat)
  {
    if h == [] then 0 else h[0].count + Total(h[1..])
  }

  /** As a multiset they are the samples. */
  lemma {:induction false} ExpandSamples(h: seq<Bucket>)
    ensures multiset(Expand(h)) == Samples(h)
    decreases |h|
  {
    if h != [] {
      ExpandSamples(h[1..]);
      RepeatCopies(h[0].count, h[0].value);
    }
  }

  lemma {:induction false} RepeatCopies(n: nat, v: nat)
    ensures multiset(seq(n, _ => v)) == Copies(Bucket(v, n))
    decreases n
  {
    var s := seq(n, _ => v);
    if n > 0 {
      var t := seq(n - 1, _ => v);
      assert s == t + [v];
      RepeatCopies(n - 1, v);
    }
  }

  /** Sample k of bucket i. */
  lemma {:induction false} ExpandAt(h: seq<Bucket>, i: nat, k: nat)
    requires i < |h| && k < h[i].count
    ensures Total(h[..i]) + k < Total(h) && Expand(h)[Total(h[..i]) + k] == h[i].value
    decreases |h|
  {
    if i > 0 {
      assert h[..i][1..] == h[1..][..i - 1] && h[1..][i - 1] == h[i];
      ExpandAt(h[1..], i - 1, k);
    }
  }

  /** Every sample is in some bucket. */
  lemma {:induction false} SampleIn(h: seq<Bucket>, k: nat) returns (i: nat)
    requires k < Total(h)
    ensures i < |h| && Total(h[..i]) <= k < Total(h[..i]) + h[i].count && Expand(h)[k] == h[i].value
    decreases |h|
  {
    if k < h[0].count {
      i := 0;
    } else {
      var j := SampleIn(h[1..], k - h[0].count);
      i := j + 1;
      assert h[..i][1..] == h[1..][..j];
    }
  }

  lemma {:induction false} TotalStep(h: seq<Bucket>, i: nat)
    requires i < |h|
    ensures Total(h[..i + 1]) == Total(h[..i]) + h[i].count
    decreases |h|
  {
    if i > 0 {
      assert h[..i + 1][1..] == h[1..][..i] && h[..i][1..] == h[1..][..i - 1];
      TotalStep(h[1..], i - 1);
    } else {
      assert h[..1] == [h[0]];
    }
  }

  /** Samples in order of value are ascending: percentiles are monotone in the rank. */
  lemma {:induction false} ExpandAscending(h: seq<Bucket>, j: nat, k: nat)
    requires ByValue(h) && j <= k < Total(h)
    ensures Expand(h)[j] <= Expand(h)[k]
    decreases |h|
  {
    if j >= h[0].count {
      ExpandAscending(h[1..], j - h[0].count, k - h[0].count);
    } else if k >= h[0].count {
      var i := SampleIn(h[1..], k - h[0].count);
      FirstLeast(h, i + 1);
    }
  }

  lemma {:induction false} FirstLeast(h: seq<Bucket>, i: nat)
    requires ByValue(h) && i < |h|
    ensures h[0].value <= h[i].value
  {
    if i > 0 {
      FirstLeast(h, i - 1);
    }
  }

  /** A way to turn a percentile of n samples into a rank. The source multiplies in floating
      point and truncates; all that matters is that a greater percentile has no smaller rank. */
  type Ranking = (nat, real) -> nat

  ghost predicate Monotone(rank: Ranking)
  {
    forall n: nat, p: real, q: real :: p <= q ==> rank(n, p) <= rank(n, q)
  }

  function Clamp(p: real): (r: real)
  {
    if p < 0.0 then 0.0 else if p > 1.0 then 1.0 else p
  }

  /** The sample of rank k, or the greatest if there are not that many. */
  ghost function SampleAt(h: seq<Bucket>, k: nat): (v: nat)
    requires Total(h) > 0
  {
    if k < Total(h) then Expand(h)[k] else Expand(h)[Total(h) - 1]
  }

  /** percentileValue finds the sample of that rank among all samples in order. */
  method PercentileValue(rank: Ranking, h: seq<Bucket>, percentile: real) returns (v: nat)
    requires h != [] && Counted(h)
    ensures Total(h) > 0 && v == SampleAt(h, rank(Total(h), Clamp(percentile)))
  {
    ExpandAt(h, |h| - 1, h[|h| - 1].count - 1);
    TotalStep(h, |h| - 1);
    assert h[..|h|] == h;
    var numSamples := 0;
    for i := 0 to |h|
      invariant numSamples == Total(h[..i])
    {
      TotalStep(h, i);
      numSamples := numSamples + h[i].count;
    }
    v := FindSample(h, rank(numSamples, Clamp(percentile)));
  }

  /** The second loop of percentileValue. */
  method FindSample(h: seq<Bucket>, index: nat) returns (v: nat)
    requires h != [] && Counted(h) && Total(h) > 0
    ensures v == SampleAt(h, index)
  {
    var considered := 0;
    for i := 0 to |h|
      invariant considered == Total(h[..i]) <= index
    {
      TotalStep(h, i);
      if considered + h[i].count > index {
        ExpandAt(h, i, index - considered);
        return h[i].value;
      }
      considered := considered + h[i].count;
    }
    ExpandAt(h, |h| - 1, h[|h| - 1].count - 1);
    TotalStep(h, |h| - 1);
    assert h[..|h|] == h;
    return h[|h| - 1].value;
  }

  /** Samples of a trimmed histogram lie between the least and the greatest price. */
  lemma SampleWithin(list: seq<nat>, low: nat, high: nat, h: seq<Bucket>, r: seq<Bucket>, k: nat)
    requires Bounds(list, low, high) && IsHistogram(h, multiset(Rounded(list, low, BucketCount(low, high))))
    requires Trimmed(h, r) && Total(r) > 0
    ensures low <= SampleAt(r, k) <= high
  {
    var i := SampleIn(r, if k < Total(r) then k else Total(r) - 1);
    assert r[i] == h[i];
    BucketSampled(h, i);
    RoundedWithin(list, low, high, h[i].value);
  }

  lemma BucketSampled(h: seq<Bucket>, i: nat)
    requires i < |h| && h[i].count > 0
    ensures h[i].value in Samples(h)
  {
    ExpandSamples(h);
    ExpandAt(h, i, 0);
    assert Expand(h)[Total(h[..i])] in multiset(Expand(h));
  }

  lemma RoundedWithin(list: seq<nat>, low: nat, high: nat, v: nat)
    requires Bounds(list, low, high) && v in multiset(Rounded(list, low, BucketCount(low, high)))
    ensures low <= v <= high
  {
    var m := Rounded(list, low, BucketCount(low, high));
    assert v in m;
  }

  // ---- moving averages --------------------------------------------------------------------

  /** A weight for the present; the past has the rest. */
  predicate IsDecay(decay: real)
  {
    0.0 <= decay <= 1.0
  }

  /** The mean of x and y with weights a and b. */
  function Mean(a: real, x: real, b: real, y: real): (m: real)
  {
    a * x + b * y
  }

  lemma Scale(k: real, x: real, y: real)
    requires k >= 0.0 && x <= y
    ensures k * x <= k * y
  {
    assert k * (y - x) >= 0.0;
  }

  /** It grows with both. */
  lemma MeanMonotone(a: real, x: real, b: real, y: real, x': real, y': real)
    requires a >= 0.0 && b >= 0.0 && x <= x' && y <= y'
    ensures Mean(a, x, b, y) <= Mean(a, x', b, y') && Mean(a, x, b, y).Floor <= Mean(a, x', b, y').Floor
  {
    Scale(a, x, x');
    Scale(b, y, y');
    Sums(a * x, a * x', b * y, b * y');
  }

  lemma Sums(p: real, p': real, q: real, q': real)
    requires p <= p' && q <= q'
    ensures p + q <= p' + q' && (p + q).Floor <= (p' + q').Floor
  {
  }

  /** The weighted mean of a price and the average so far, rounded down. */
  function Blend(decay: real, value: nat, price: nat): (r: nat)
    requires IsDecay(decay)
  {
    MeanMonotone(decay, 0.0, 1.0 - decay, 0.0, price as real, value as real);
    Mean(decay, price as real, 1.0 - decay, value as real).Floor
  }

  lemma BlendMonotone(decay: real, value: nat, price: nat, value': nat, price': nat)
    requires IsDecay(decay) && value <= value' && price <= price'
    ensures Blend(decay, value, price) <= Blend(decay, value', price')
  {
    MeanMonotone(decay, price as real, 1.0 - decay, value as real, price' as real, value' as real);
  }

  lemma BlendSame(decay: real, price: nat)
    requires IsDecay(decay)
    ensures Blend(decay, price, price) == price
  {
    assert Mean(decay, price as real, 1.0 - decay, price as real) == price as real;
  }

  /** For decay one half it is the mean, rounded down. */
  lemma BlendHalf(value: nat, price: nat)
    ensures Blend(0.5, value, price) == (value + price) / 2
  {
    var mean := Mean(0.5, price as real, 1.0 - 0.5, value as real);
    var k := (value + price) / 2;
    assert mean == (value + price) as real * 0.5;
    assert k as real <= mean < k as real + 1.0;
  }

  class Ema {
    const decay: real
    var value: Option<nat>

    constructor (decay: real)
      ensures value == None && this.decay == decay
    {
      this.decay, value := decay, None;
    }

    /** The first price is the first average; later ones are blended in. */
    method Tick(price: nat) returns (r: nat)
      requires IsDecay(decay)
      modifies this
      ensures value == Some(r)
      ensures r == if old(value) == None then price else Blend(decay, old(value).value, price)
      ensures decay == 0.5 && old(value).Some? ==> r == (old(value).value + price) / 2
    {
      if value == None {
        value := Some(price);
      }
      var before := value.value;
      var current := price as real * decay;
      var past := (1.0 - decay) * before as real;
      assert current + past == Mean(decay, price as real, 1.0 - decay, before as real);
      ghost var mean := Blend(decay, before, price);
      value := Some((current + past).Floor);
      r := value.value;
      BlendSame(decay, price);
      BlendHalf(before, price);
    }
  }

  /** A suggestion, in whole gwei and in wei. */
  datatype Suggestion = Suggestion(
    instant: nat, fast: nat, standard: nat, slow: nat,
    instantWei: nat, fastWei: nat, standardWei: nat, slowWei: nat)

  /** The four prices a block contributes. */
  datatype Quote = Quote(instant: nat, fast: nat, standard: nat, slow: nat)

  /** A quote is in order and within bounds. */
  predicate InOrder(q: Quote, low: nat, high: nat)
  {
    low <= q.slow <= q.standard <= q.fast <= q.instant <= high
  }

  /** What a block's samples are turned into: at least minPrice, slow 15% below standard. */
  function QuoteOf(high: nat, mid: nat, low: nat, minPrice: nat): (q: Quote)
    requires low <= mid <= high
    ensures InOrder(q, minPrice, Max(high, minPrice))
  {
    var standard := Max(low, minPrice);
    Quote(Max(high, minPrice), Max(mid, minPrice), standard, Max(standard * 85 / 100, minPrice))
  }

  /** All four averages after a tick. */
  function Ticked(decay: real, old_: Option<Quote>, q: Quote): (r: Quote)
    requires IsDecay(decay)
  {
    if old_ == None then q
    else Quote(Blend(decay, old_.value.instant, q.instant), Blend(decay, old_.value.fast, q.fast),
               Blend(decay, old_.value.standard, q.standard), Blend(decay, old_.value.slow, q.slow))
  }

  /** With the decay the gauge uses, each average becomes the mean of itself and its own price. */
  lemma TickedHalf(o: Quote, q: Quote)
    ensures Ticked(0.5, Some(o), q)
         == Quote((o.instant + q.instant) / 2, (o.fast + q.fast) / 2, (o.standard + q.standard) / 2, (o.slow + q.slow) / 2)
  {
    BlendHalf(o.instant, q.instant);
    BlendHalf(o.fast, q.fast);
    BlendHalf(o.standard, q.standard);
    BlendHalf(o.slow, q.slow);
  }

  /** Averaging keeps the order and the bounds, for any decay. */
  lemma TickKeepsOrder(decay: real, old_: Option<Quote>, q: Quote, low: nat, high: nat)
    requires IsDecay(decay) && (old_.Some? ==> InOrder(old_.value, low, high)) && InOrder(q, low, high)
    ensures InOrder(Ticked(decay, old_, q), low, high)
  {
    if old_.Some? {
      var o := old_.value;
      BlendSame(decay, low);
      BlendMonotone(decay, low, low, o.slow, q.slow);
      BlendMonotone(decay, o.slow, q.slow, o.standard, q.standard);
      BlendMonotone(decay, o.standard, q.standard, o.fast, q.fast);
      BlendMonotone(decay, o.fast, q.fast, o.instant, q.instant);
      BlendMonotone(decay, o.instant, q.instant, high, high);
      BlendSame(decay, high);
    }
  }

  function SuggestionOf(q: Quote): (s: Suggestion)
  {
    Suggestion(q.instant / ONE_GWEI, q.fast / ONE_GWEI, q.standard / ONE_GWEI, q.slow / ONE_GWEI,
               q.instant, q.fast, q.standard, q.slow)
  }

  /** The quote of a block with these prices: the samples of the trimmed histogram r at three
      ranks; none if a sample is zero. */
  ghost function BlockQuote(rank: Ranking, r: seq<Bucket>, minPrice: nat): (q: Option<Quote>)
    requires Monotone(rank) && ByValue(r) && Total(r) > 0
  {
    var n := Total(r);
    var high, mid, low := SampleAt(r, rank(n, 0.7)), SampleAt(r, rank(n, 0.6)), SampleAt(r, rank(n, 0.5));
    SamplesInOrder(r, rank(n, 0.6), rank(n, 0.7));
    SamplesInOrder(r, rank(n, 0.5), rank(n, 0.6));
    if high == 0 || mid == 0 || low == 0 then None else Some(QuoteOf(high, mid, low, minPrice))
  }

  /** The quote, price by price: the samples at 70, 60 and 50 percent, and 85 percent of the last rounded
      down, each raised to the minimum if it is below. */
  lemma QuoteExact(rank: Ranking, r: seq<Bucket>, minPrice: nat)
    requires Monotone(rank) && ByValue(r) && Total(r) > 0 && BlockQuote(rank, r, minPrice).Some?
    ensures var q, n := BlockQuote(rank, r, minPrice).value, Total(r);
            && (if SampleAt(r, rank(n, 0.7)) < minPrice then q.instant == minPrice else q.instant == SampleAt(r, rank(n, 0.7)))
            && (if SampleAt(r, rank(n, 0.6)) < minPrice then q.fast == minPrice else q.fast == SampleAt(r, rank(n, 0.6)))
            && (if SampleAt(r, rank(n, 0.5)) < minPrice then q.standard == minPrice else q.standard == SampleAt(r, rank(n, 0.5)))
            && (if q.standard * 85 < minPrice * 100 then q.slow == minPrice
                else q.slow * 100 <= q.standard * 85 < (q.slow + 1) * 100)
  {
  }

  lemma {:induction false} SamplesInOrder(r: seq<Bucket>, j: nat, k: nat)
    requires ByValue(r) && Total(r) > 0 && j <= k
    ensures SampleAt(r, j) <= SampleAt(r, k)
  {
    var last := Total(r) - 1;
    ExpandAscending(r, if j < last then j else last, if k < last then k else last);
  }

  class Emas {
    const instant: Ema
    const fast: Ema
    const standard: Ema
    const slow: Ema
    const decay: real

    ghost predicate Valid()
      reads this, instant, fast, standard, slow
    {
      && IsDecay(decay) && decay == instant.decay == fast.decay == standard.decay == slow.decay
      && instant != fast && instant != standard && instant != slow
      && fast != standard && fast != slow && standard != slow
      && (instant.value == None <==> fast.value == None)
      && (instant.value == None <==> standard.value == None)
      && (instant.value == None <==> slow.value == None)
    }

    /** The averages so far. */
    ghost function Quoted(): (q: Option<Quote>)
      requires Valid()
      reads this, instant, fast, standard, slow
    {
      if instant.value == None then None
      else Some(Quote(instant.value.value, fast.value.value, standard.value.value, slow.value.value))
    }

    constructor (decay: real)
      requires IsDecay(decay)
      ensures Valid() && Quoted() == None && this.decay == decay
      ensures fresh(instant) && fresh(fast) && fresh(standard) && fresh(slow)
    {
      this.decay := decay;
      instant := new Ema(decay);
      fast := new Ema(decay);
      standard := new Ema(decay);
      slow := new Ema(decay);
    }

    /** update: no prices or a zero sample change nothing; otherwise each average takes in its own
        sample of the block. r is the trimmed histogram of the prices. */
    method Update(rank: Ranking, prices: seq<nat>, minPrice: nat)
      returns (s: Option<Suggestion>, ghost h: seq<Bucket>, ghost r: seq<Bucket>, ghost low: nat, ghost high: nat)
      requires Valid() && Monotone(rank)
      modifies instant, fast, standard, slow
      ensures Valid()
      ensures prices == [] ==> s == None && Quoted() == old(Quoted())
      ensures prices != [] ==> HistogramOf(prices, h, r, low, high)
      ensures prices != [] && BlockQuote(rank, r, minPrice) == None ==> s == None && Quoted() == old(Quoted())
      ensures prices != [] && BlockQuote(rank, r, minPrice).Some? ==>
                && Quoted() == Some(Ticked(decay, old(Quoted()), BlockQuote(rank, r, minPrice).value))
                && s == Some(SuggestionOf(Quoted().value))
    {
      if |prices| == 0 {
        return None, [], [], 0, 0;
      }
      var q;
      q, h, r, low, high := SampleBlock(rank, prices, minPrice);
      if q == None {
        return None, h, r, low, high;
      }
      var t := Tick(q.value);
      s := Some(t);
    }

    /** update with the prices of a block that are not below the minimum. */
    method TakeBlock(rank: Ranking, prices: seq<nat>, minPrice: nat, ghost greatest: nat)
      returns (s: Option<Suggestion>, ghost h: seq<Bucket>, ghost r: seq<Bucket>, ghost low: nat, ghost high: nat)
      requires Valid() && Monotone(rank) && minPrice > 0
      requires Quoted().Some? ==> InOrder(Quoted().value, minPrice, greatest)
      modifies instant, fast, standard, slow
      ensures Valid() && (Quoted().Some? ==> InOrder(Quoted().value, minPrice, Max(greatest, GreatestOf(prices))))
      ensures Paid(prices, minPrice) == [] ==> s == None && Quoted() == old(Quoted())
      ensures Paid(prices, minPrice) != [] ==>
                && HistogramOf(Paid(prices, minPrice), h, r, low, high) && BlockQuote(rank, r, minPrice).Some?
                && Quoted() == Some(Ticked(decay, old(Quoted()), BlockQuote(rank, r, minPrice).value))
                && s == Some(SuggestionOf(Quoted().value))
    {
      var paid := FilterPaid(prices, minPrice);
      ghost var before := Quoted();
      s, h, r, low, high := Update(rank, paid, minPrice);
      if paid != [] {
        BlockKeepsOrder(decay, rank, prices, minPrice, h, r, low, high, before, greatest);
      }
    }

    /** Each average takes in its own price. */
    method Tick(q: Quote) returns (s: Suggestion)
      requires Valid()
      modifies instant, fast, standard, slow
      ensures Valid() && Quoted() == Some(Ticked(decay, old(Quoted()), q)) && s == SuggestionOf(Quoted().value)
    {
      var i := instant.Tick(q.instant);
      var f := fast.Tick(q.fast);
      var d := standard.Tick(q.standard);
      var w := slow.Tick(q.slow);
      s := Suggestion(i / ONE_GWEI, f / ONE_GWEI, d / ONE_GWEI, w / ONE_GWEI, i, f, d, w);
    }
  }

  /** The first half of update: the prices the block contributes. */
  method SampleBlock(rank: Ranking, prices: seq<nat>, minPrice: nat)
    returns (q: Option<Quote>, ghost h: seq<Bucket>, ghost r: seq<Bucket>, ghost low: nat, ghost high: nat)
    requires Monotone(rank) && prices != []
    ensures HistogramOf(prices, h, r, low, high) && q == BlockQuote(rank, r, minPrice)
  {
    var hist;
    hist, h, low, high := GasPriceHistogram(prices);
    r := hist;
    NonEmptyHistogram(prices, h, r, low, high);
    var high', mid, low' := SamplePrices(rank, hist);
    if high' == 0 || mid == 0 || low' == 0 {
      return None, h, r, low, high;
    }
    var standard := Max(low', minPrice);
    q := Some(Quote(Max(high', minPrice), Max(mid, minPrice), standard, Max(standard * 85 / 100, minPrice)));
  }

  /** r is what gasPriceHistogram makes of the prices, and h what it makes before trimming. */
  ghost predicate HistogramOf(prices: seq<nat>, h: seq<Bucket>, r: seq<Bucket>, low: nat, high: nat)
  {
    && Bounds(prices, low, high) && Trimmed(h, r) && ByValue(r) && Counted(r) && Total(r) > 0
    && IsHistogram(h, multiset(Rounded(prices, low, BucketCount(low, high))))
  }

  lemma NonEmptyHistogram(prices: seq<nat>, h: seq<Bucket>, r: seq<Bucket>, low: nat, high: nat)
    requires prices != [] && Bounds(prices, low, high) && Trimmed(h, r)
    requires IsHistogram(h, multiset(Rounded(prices, low, BucketCount(low, high))))
    ensures HistogramOf(prices, h, r, low, high) && r != []
  {
    assert Rounded(prices, low, BucketCount(low, high))[0] in Samples(h);
    ExpandAt(r, 0, 0);
  }

  /** samplePrices: the samples at 70, 60 and 50 percent; zeros for the empty histogram. */
  method SamplePrices(rank: Ranking, h: seq<Bucket>) returns (high: nat, mid: nat, low: nat)
    requires Counted(h) && ByValue(h)
    ensures h == [] ==> high == mid == low == 0
    ensures h != [] ==>
              && Total(h) > 0 && high == SampleAt(h, rank(Total(h), 0.7))
              && mid == SampleAt(h, rank(Total(h), 0.6)) && low == SampleAt(h, rank(Total(h), 0.5))
  {
    if |h| == 0 {
      return 0, 0, 0;
    }
    high := PercentileValue(rank, h, 0.7);
    mid := PercentileValue(rank, h, 0.6);
    low := PercentileValue(rank, h, 0.5);
  }

  /** Prices at or above minPrice give a quote between minPrice and the greatest price. */
  lemma QuoteWithin(rank: Ranking, prices: seq<nat>, h: seq<Bucket>, r: seq<Bucket>, low: nat, high: nat, minPrice: nat)
    requires Monotone(rank) && HistogramOf(prices, h, r, low, high)
    requires 0 < minPrice && forall i :: 0 <= i < |prices| ==> minPrice <= prices[i]
    ensures var q := BlockQuote(rank, r, minPrice); q.Some? && InOrder(q.value, minPrice, high)
  {
    var n := Total(r);
    SampleWithin(prices, low, high, h, r, rank(n, 0.7));
    SampleWithin(prices, low, high, h, r, rank(n, 0.6));
    SampleWithin(prices, low, high, h, r, rank(n, 0.5));
  }

  // ---- the gauge --------------------------------------------------------------------------

  /** WithMin: raise everything to the minimum; in gwei the minimum is rounded up. */
  function WithMin(s: Suggestion, minWei: nat): (r: Suggestion)
  {
    var g := (minWei + ONE_GWEI - 1) / ONE_GWEI;
    Suggestion(Max(g, s.instant), Max(g, s.fast), Max(g, s.standard), Max(g, s.slow),
               Max(minWei, s.instantWei), Max(minWei, s.fastWei), Max(minWei, s.standardWei), Max(minWei, s.slowWei))
  }

  /** The suggestion is in order, in both units, and between minWei and high. */
  ghost predicate Sensible(s: Suggestion, minWei: nat, high: nat)
  {
    && minWei <= s.slowWei <= s.standardWei <= s.fastWei <= s.instantWei <= Max(minWei, high)
    && s.slow <= s.standard <= s.fast <= s.instant
    && minWei <= s.slow * ONE_GWEI && s.instant * ONE_GWEI < Max(minWei + ONE_GWEI, high + 1)
  }

  /** What the gauge hands out for averages in order is sensible. */
  lemma WithMinSensible(q: Quote, minWei: nat, high: nat)
    requires InOrder(q, minWei, high)
    ensures Sensible(WithMin(SuggestionOf(q), minWei), minWei, high)
  {
    GweiOrder(q.slow, q.standard);
    GweiOrder(q.standard, q.fast);
    GweiOrder(q.fast, q.instant);
  }

  /** g is the price in whole gwei, rounded down, or up if that would be below the minimum. */
  ghost predicate InGwei(g: nat, price: nat, minWei: nat)
  {
    if price - price % ONE_GWEI >= minWei then g * ONE_GWEI == price - price % ONE_GWEI
    else minWei <= g * ONE_GWEI < minWei + ONE_GWEI
  }

  /** Averages at or above the minimum are handed out unchanged in wei, and rounded in gwei. */
  lemma WithMinKeeps(q: Quote, minWei: nat, high: nat)
    requires InOrder(q, minWei, high)
    ensures var s := WithMin(SuggestionOf(q), minWei);
            && s.instantWei == q.instant && s.fastWei == q.fast && s.standardWei == q.standard && s.slowWei == q.slow
            && InGwei(s.instant, q.instant, minWei) && InGwei(s.fast, q.fast, minWei)
            && InGwei(s.standard, q.standard, minWei) && InGwei(s.slow, q.slow, minWei)
  {
    GweiIs(q.instant, minWei);
    GweiIs(q.fast, minWei);
    GweiIs(q.standard, minWei);
    GweiIs(q.slow, minWei);
  }

  lemma GweiIs(price: nat, minWei: nat)
    ensures InGwei(Max((minWei + ONE_GWEI - 1) / ONE_GWEI, price / ONE_GWEI), price, minWei)
  {
  }

  lemma GweiOrder(a: nat, b: nat)
    requires a <= b
    ensures a / ONE_GWEI <= b / ONE_GWEI && b / ONE_GWEI * ONE_GWEI <= b
  {
  }

  const NOTHING := Suggestion(0, 0, 0, 0, 0, 0, 0, 0)

  /** The prices that are not deals below the minimum. */
  function Paid(prices: seq<nat>, minPrice: nat): (r: seq<nat>)
    ensures forall i :: 0 <= i < |r| ==> r[i] >= minPrice && r[i] in prices
  {
    if prices == [] then []
    else
      var n := |prices| - 1;
      Paid(prices[..n], minPrice) + (if prices[n] >= minPrice then [prices[n]] else [])
  }

  /** Every price that is not below the minimum is kept as often as it was paid, and no other. */
  lemma {:induction false} PaidExact(prices: seq<nat>, minPrice: nat, p: nat)
    ensures multiset(Paid(prices, minPrice))[p] == if p >= minPrice then multiset(prices)[p] else 0
    decreases |prices|
  {
    if prices != [] {
      var n := |prices| - 1;
      PaidExact(prices[..n], minPrice, p);
      assert prices == prices[..n] + [prices[n]];
    }
  }

  /** The greatest price of all blocks so far. */
  function Greatest(blocks: seq<seq<nat>>): (g: nat)
    ensures forall i, j :: 0 <= i < |blocks| && 0 <= j < |blocks[i]| ==> blocks[i][j] <= g
  {
    if blocks == [] then 0 else Max(Greatest(blocks[..|blocks| - 1]), GreatestOf(blocks[|blocks| - 1]))
  }

  function GreatestOf(prices: seq<nat>): (g: nat)
    ensures forall j :: 0 <= j < |prices| ==> prices[j] <= g
  {
    if prices == [] then 0 else Max(prices[0], GreatestOf(prices[1..]))
  }

  class Gauge {
    const minGasPrice: nat
    const emas: Emas
    var suggested: Suggestion
    ghost var blocks: seq<seq<nat>>   // the prices of every block so far

    /** The averages are in order, and what is suggested is what they were at the last update. */
    ghost predicate Valid()
      reads this, emas, emas.instant, emas.fast, emas.standard, emas.slow
    {
      && minGasPrice > 0 && emas.Valid()
      && (emas.Quoted() == None ==> suggested == NOTHING)
      && (emas.Quoted().Some? ==>
            && InOrder(emas.Quoted().value, minGasPrice, Greatest(blocks))
            && suggested == SuggestionOf(emas.Quoted().value))
    }

    constructor (minGasPriceInWei: nat)
      requires minGasPriceInWei > 0
      ensures Valid() && minGasPrice == minGasPriceInWei && blocks == []
      ensures fresh(emas) && fresh(emas.instant) && fresh(emas.fast) && fresh(emas.standard) && fresh(emas.slow)
    {
      minGasPrice := minGasPriceInWei;
      emas := new Emas(0.5);
      suggested := NOTHING;
      blocks := [];
    }

    /** What run does with the prices of a new block. Without a paid price nothing changes; with
        some, the averages take in the quote of their histogram and give the new suggestion. */
    method NewBlock(rank: Ranking, prices: seq<nat>) returns (ghost h: seq<Bucket>, ghost r: seq<Bucket>, ghost low: nat, ghost high: nat)
      requires Valid() && Monotone(rank)
      modifies this, emas.instant, emas.fast, emas.standard, emas.slow
      ensures Valid() && blocks == old(blocks) + [prices]
      ensures Paid(prices, minGasPrice) == [] ==> emas.Quoted() == old(emas.Quoted()) && suggested == old(suggested)
      ensures Paid(prices, minGasPrice) != [] ==>
                && HistogramOf(Paid(prices, minGasPrice), h, r, low, high) && BlockQuote(rank, r, minGasPrice).Some?
                && emas.Quoted() == Some(Ticked(emas.decay, old(emas.Quoted()), BlockQuote(rank, r, minGasPrice).value))
                && suggested == SuggestionOf(emas.Quoted().value)
    {
      GreatestGrows(blocks, prices);
      var s;
      s, h, r, low, high := emas.TakeBlock(rank, prices, minGasPrice, Greatest(blocks));
      blocks := blocks + [prices];
      suggested := if s.Some? then s.value else suggested;
    }

    /** What a caller is told after a new block. */
    method Observe(rank: Ranking, prices: seq<nat>) returns (s: Suggestion)
      requires Valid() && Monotone(rank)
      modifies this, emas.instant, emas.fast, emas.standard, emas.slow
      ensures Valid() && blocks == old(blocks) + [prices] && Sensible(s, minGasPrice, Greatest(blocks))
    {
      var _, _, _, _ := NewBlock(rank, prices);
      s := SuggestedGasPrice();
    }

    /** SuggestedGasPrice. Before the first update it is the minimum. */
    method SuggestedGasPrice() returns (s: Suggestion)
      requires Valid()
      ensures s == WithMin(suggested, minGasPrice) && Sensible(s, minGasPrice, Greatest(blocks))
      ensures emas.Quoted().Some? ==>
                var q := emas.Quoted().value;
                && s.instantWei == q.instant && s.fastWei == q.fast && s.standardWei == q.standard && s.slowWei == q.slow
                && InGwei(s.instant, q.instant, minGasPrice) && InGwei(s.fast, q.fast, minGasPrice)
                && InGwei(s.standard, q.standard, minGasPrice) && InGwei(s.slow, q.slow, minGasPrice)
      ensures emas.Quoted() == None ==> s.instantWei == s.fastWei == s.standardWei == s.slowWei == minGasPrice
    {
      s := WithMin(suggested, minGasPrice);
      if emas.Quoted().Some? {
        WithMinSensible(emas.Quoted().value, minGasPrice, Greatest(blocks));
        WithMinKeeps(emas.Quoted().value, minGasPrice, Greatest(blocks));
      }
    }
  }

  lemma GreatestGrows(blocks: seq<seq<nat>>, prices: seq<nat>)
    ensures Greatest(blocks + [prices]) == Max(Greatest(blocks), GreatestOf(prices))
  {
    assert (blocks + [prices])[..|blocks|] == blocks;
  }

  lemma PaidGreatest(prices: seq<nat>, minPrice: nat, high: nat)
    requires high in Paid(prices, minPrice)
    ensures high <= GreatestOf(prices)
  {
  }

  /** A block's quote exists, and ticking it keeps the averages in order and within bounds. */
  lemma BlockKeepsOrder(decay: real, rank: Ranking, prices: seq<nat>, minPrice: nat,
                        h: seq<Bucket>, r: seq<Bucket>, low: nat, high: nat, before: Option<Quote>, greatest: nat)
    requires IsDecay(decay) && Monotone(rank) && minPrice > 0 && HistogramOf(Paid(prices, minPrice), h, r, low, high)
    requires before.Some? ==> InOrder(before.value, minPrice, greatest)
    ensures var q := BlockQuote(rank, r, minPrice);
            q.Some? && InOrder(Ticked(decay, before, q.value), minPrice, Max(greatest, GreatestOf(prices)))
  {
    QuoteWithin(rank, Paid(prices, minPrice), h, r, low, high, minPrice);
    PaidGreatest(prices, minPrice, high);
    TickKeepsOrder(decay, before, BlockQuote(rank, r, minPrice).value, minPrice, Max(greatest, GreatestOf(prices)));
  }

  /** The filter loop of run. */
  method FilterPaid(prices: seq<nat>, minPrice: nat) returns (r: seq<nat>)
    ensures r == Paid(prices, minPrice)
  {
    r := [];
    for i := 0 to |prices|
      invariant r == Paid(prices[..i], minPrice)
    {
      assert prices[..i + 1][..i] == prices[..i];
      if prices[i] >= minPrice {
        r := r + [prices[i]];
      }
    }
    assert prices[..|prices|] == prices;
  }

  /** Over any sequence of blocks, every suggestion handed out is in order, at least the minimum
      and at most the greatest price seen so far. */
  method RunGauge(rank: Ranking, minGasPriceInWei: nat, chain: seq<seq<nat>>) returns (out: seq<Suggestion>)
    requires minGasPriceInWei > 0 && Monotone(rank)
    ensures |out| == |chain|
    ensures forall k :: 0 <= k < |chain| ==> Sensible(out[k], minGasPriceInWei, Greatest(chain[..k + 1]))
  {
    var g := new Gauge(minGasPriceInWei);
    out := [];
    for i := 0 to |chain|
      invariant g.Valid() && g.minGasPrice == minGasPriceInWei && g.blocks == chain[..i] && |out| == i
      invariant fresh(g) && fresh(g.emas.instant) && fresh(g.emas.fast) && fresh(g.emas.standard) && fresh(g.emas.slow)
      invariant forall k :: 0 <= k < i ==> Sensible(out[k], minGasPriceInWei, Greatest(chain[..k + 1]))
    {
      assert chain[..i + 1] == chain[..i] + [chain[i]];
      var s := g.Observe(rank, chain[i]);
      out := out + [s];
    }
  }
}
