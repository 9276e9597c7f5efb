/** The statistics of one (table, metric): the running datapoint of TableStats and what it emits,
    over the reals, against the plain sum, minimum and maximum of the samples. */
module Samples {

  datatype Datapoint = Datapoint(n: nat, avg: real, min: real, max: real)

  function Min(a: real, b: real): real { if b < a then b else a }

  function Max(a: real, b: real): real { if b > a then b else a }

  function Abs(x: real): real { if x < 0.0 then -x else x }

  // ---------- the running datapoint ----------

  function First(v: real): Datapoint {
    Datapoint(1, v, v, v)
  }

  /** The running average of n samples, with one more. */
  function Mean(avg: real, n: nat, v: real): real {
    (avg * n as real + v) / (n as real + 1.0)
  }

  function Update(d: Datapoint, v: real): Datapoint {
    Datapoint(d.n + 1,
              Mean(d.avg, d.n, v),
              Min(d.min, v),
              Max(d.max, v))
  }

  function Fold(samples: seq<real>): Datapoint
    requires samples != []
  {
    if |samples| == 1 then First(samples[0])
    else Update(Fold(samples[..|samples| - 1]), samples[|samples| - 1])
  }

  // ---------- what it stands for ----------

  function Sum(samples: seq<real>): real {
    if samples == [] then 0.0 else Sum(samples[..|samples| - 1]) + samples[|samples| - 1]
  }

  ghost predicate IsMin(m: real, samples: seq<real>) {
    m in samples && forall s :: s in samples ==> m <= s
  }

  ghost predicate IsMax(m: real, samples: seq<real>) {
    m in samples && forall s :: s in samples ==> s <= m
  }

  ghost predicate Exact(d: Datapoint, samples: seq<real>) {
    && d.n == |samples| > 0
    && d.avg * d.n as real == Sum(samples)
    && IsMin(d.min, samples)
    && IsMax(d.max, samples)
  }

  lemma DivideMultiply(total: real, n: real)
    requires n != 0.0
    ensures (total / n) * n == total
  {
  }

  lemma UpdateAverage(d: Datapoint, v: real)
    ensures Update(d, v).avg * Update(d, v).n as real == d.avg * d.n as real + v
  {
    DivideMultiply(d.avg * d.n as real + v, d.n as real + 1.0);
    assert Update(d, v).n as real == d.n as real + 1.0;
  }

  lemma {:induction false} FoldMean(samples: seq<real>)
    requires samples != []
    ensures var d := Fold(samples); d.n == |samples| && d.avg * d.n as real == Sum(samples)
  {
    if |samples| == 1 {
      assert samples[..0] == [];
    } else {
      var init := samples[..|samples| - 1];
      FoldMean(init);
      UpdateAverage(Fold(init), samples[|samples| - 1]);
      assert Fold(samples) == Update(Fold(init), samples[|samples| - 1]);
    }
  }

  lemma {:induction false} FoldExtremes(samples: seq<real>)
    requires samples != []
    ensures IsMin(Fold(samples).min, samples) && IsMax(Fold(samples).max, samples)
  {
    if |samples| > 1 {
      var init, v := samples[..|samples| - 1], samples[|samples| - 1];
      FoldExtremes(init);
      assert samples == init + [v];
      assert forall s :: s in samples <==> s in init || s == v;
    }
  }

  lemma {:induction false} FoldExact(samples: seq<real>)
    requires samples != []
    ensures Exact(Fold(samples), samples)
  {
    FoldMean(samples);
    FoldExtremes(samples);
  }

  /** The datapoint is determined by what it stands for. */
  lemma ExactUnique(a: Datapoint, b: Datapoint, xs: seq<real>, ys: seq<real>)
    requires Exact(a, xs) && Exact(b, ys) && multiset(xs) == multiset(ys)
    ensures a == b
  {
    SumOfPermutation(xs, ys);
    assert |xs| == |multiset(xs)| == |ys|;
    SameMembers(xs, ys);
    SameMembers(ys, xs);
    QuotientOrder(a.avg, b.avg, a.n as real);
    QuotientOrder(b.avg, a.avg, a.n as real);
  }

  lemma Positive(x: real, y: real)
    requires x > 0.0 && y > 0.0
    ensures x * y > 0.0
  {
  }

  lemma QuotientOrder(a: real, b: real, n: real)
    requires n > 0.0 && a * n <= b * n
    ensures a <= b
  {
    assert (a - b) * n == a * n - b * n;
    if a > b {
      Positive(a - b, n);
    }
  }

  lemma SameMembers<T>(xs: seq<T>, ys: seq<T>)
    requires multiset(xs) == multiset(ys)
    ensures forall x :: x in xs ==> x in ys
  {
    forall x | x in xs ensures x in ys {
      assert x in multiset(xs);
      assert x in multiset(ys);
    }
  }

  function Drop<T>(xs: seq<T>, i: nat): seq<T>
    requires i < |xs|
  {
    xs[..i] + xs[i + 1..]
  }

  lemma DropMultiset<T>(xs: seq<T>, i: nat)
    requires i < |xs|
    ensures multiset(Drop(xs, i)) == multiset(xs) - multiset{xs[i]}
  {
    assert xs == xs[..i] + ([xs[i]] + xs[i + 1..]);
  }

  lemma SumSnoc(xs: seq<real>, x: real)
    ensures Sum(xs + [x]) == Sum(xs) + x
  {
    assert (xs + [x])[..|xs|] == xs;
  }

  lemma {:induction false} SumDrop(xs: seq<real>, i: nat)
    requires i < |xs|
    ensures Sum(xs) == Sum(Drop(xs, i)) + xs[i]
  {
    var last := |xs| - 1;
    if i == last {
      assert Drop(xs, i) == xs[..last];
    } else {
      SumDrop(xs[..last], i);
      assert Drop(xs, i) == Drop(xs[..last], i) + [xs[last]];
      SumSnoc(Drop(xs[..last], i), xs[last]);
    }
  }

  lemma {:induction false} SumOfPermutation(xs: seq<real>, ys: seq<real>)
    requires multiset(xs) == multiset(ys)
    ensures Sum(xs) == Sum(ys)
    decreases |xs|
  {
    if xs == [] {
      assert |multiset(ys)| == 0;
    } else {
      var last := |xs| - 1;
      var x := xs[last];
      assert x in multiset(xs);
      var i :| 0 <= i < |ys| && ys[i] == x;
      DropMultiset(xs, last);
      DropMultiset(ys, i);
      assert Drop(xs, last) == xs[..last];
      SumOfPermutation(xs[..last], Drop(ys, i));
      SumDrop(ys, i);
    }
  }

  /** The order of the samples never matters. */
  lemma OrderIrrelevant(xs: seq<real>, ys: seq<real>)
    requires xs != [] && multiset(xs) == multiset(ys)
    ensures ys != [] && Fold(xs) == Fold(ys)
  {
    assert xs[0] in multiset(ys);
    FoldExact(xs);
    FoldExact(ys);
    ExactUnique(Fold(xs), Fold(ys), xs, ys);
  }

  lemma BoundsStep(lo: real, hi: real, n: real, sum: real, v: real)
    requires lo * n <= sum <= hi * n && lo <= v <= hi
    ensures lo * (n + 1.0) <= sum + v <= hi * (n + 1.0)
  {
    assert lo * (n + 1.0) == lo * n + lo;
    assert hi * (n + 1.0) == hi * n + hi;
  }

  lemma {:induction false} SumBounds(samples: seq<real>, lo: real, hi: real)
    requires forall s :: s in samples ==> lo <= s <= hi
    ensures lo * |samples| as real <= Sum(samples) <= hi * |samples| as real
  {
    if samples != [] {
      var init, v := samples[..|samples| - 1], samples[|samples| - 1];
      assert forall s :: s in init ==> s in samples;
      assert v in samples;
      SumBounds(init, lo, hi);
      var n := |init| as real;
      assert |samples| as real == n + 1.0;
      BoundsStep(lo, hi, n, Sum(init), v);
    }
  }

  lemma MeanBetween(d: Datapoint, samples: seq<real>)
    requires Exact(d, samples)
    ensures d.min <= d.avg <= d.max
  {
    SumBounds(samples, d.min, d.max);
    MeanFromSum(d, Sum(samples), d.n as real);
  }

  lemma MeanFromSum(d: Datapoint, sum: real, n: real)
    requires n > 0.0 && d.avg * n == sum && d.min * n <= sum <= d.max * n
    ensures d.min <= d.avg <= d.max
  {
    QuotientOrder(d.min, d.avg, n);
    QuotientOrder(d.avg, d.max, n);
  }

  // ---------- what is emitted ----------

  function DeltaOf(d: Datapoint): real {
    Max(Abs(d.max - d.avg), Abs(d.avg - d.min))
  }

  function DevOf(d: Datapoint, threshold: real): real {
    var val := DeltaOf(d);
    if d.avg > 0.001 && val > threshold then val / Abs(d.avg) else 0.0
  }

  /** The emitted delta is the largest deviation of any sample from the mean, and lies between half
      the range and the range. */
  lemma DeltaIsLargestDeviation(d: Datapoint, samples: seq<real>)
    requires Exact(d, samples)
    ensures exists s :: s in samples && (s - d.avg == DeltaOf(d) || d.avg - s == DeltaOf(d))
    ensures forall s :: s in samples ==> -DeltaOf(d) <= s - d.avg <= DeltaOf(d)
    ensures (d.max - d.min) / 2.0 <= DeltaOf(d) <= d.max - d.min
  {
    MeanBetween(d, samples);
    assert d.max in samples && d.min in samples;
  }

  /** Some sample is further from the mean than the threshold. */
  ghost predicate Deviates(samples: seq<real>, mean: real, threshold: real) {
    exists s :: s in samples && (s - mean > threshold || mean - s > threshold)
  }

  /** The emitted dev: the delta in units of the mean when some sample deviates by more than the
      threshold from a mean above 0.001, else 0. */
  lemma {:induction false} DevExact(d: Datapoint, samples: seq<real>, threshold: real)
    requires Exact(d, samples)
    ensures if d.avg > 0.001 && Deviates(samples, d.avg, threshold)
            then DevOf(d, threshold) * d.avg == DeltaOf(d) else DevOf(d, threshold) == 0.0
  {
    DeltaIsLargestDeviation(d, samples);
    if d.avg > 0.001 {
      DivideMultiply(DeltaOf(d), d.avg);
      assert DeltaOf(d) > threshold <==> Deviates(samples, d.avg, threshold);
    }
  }

  lemma MaxBelowSum(samples: seq<real>, x: real)
    requires x in samples && forall s :: s in samples ==> s >= 0.0
    ensures x <= Sum(samples)
  {
    var i :| 0 <= i < |samples| && samples[i] == x;
    var rest := Drop(samples, i);
    SumDrop(samples, i);
    forall s | s in rest ensures s >= 0.0 {
      assert s in samples;
    }
    SumAtLeastZero(rest);
  }

  lemma {:induction false} SumAtLeastZero(samples: seq<real>)
    requires forall s :: s in samples ==> s >= 0.0
    ensures Sum(samples) >= 0.0
  {
    if samples != [] {
      var init := samples[..|samples| - 1];
      assert samples[|samples| - 1] in samples;
      assert forall s :: s in init ==> s in samples;
      SumAtLeastZero(init);
    }
  }

  lemma DivideBound(a: real, b: real, k: real)
    requires b > 0.0 && a <= k * b
    ensures a / b <= k
  {
    assert a == (a / b) * b;
    QuotientOrder(a / b, k, b);
  }

  /** For non-negative samples the emitted dev is at most n - 1, or 1. */
  lemma DevBounded(d: Datapoint, samples: seq<real>, threshold: real)
    requires Exact(d, samples) && forall s :: s in samples ==> s >= 0.0
    ensures 0.0 <= DevOf(d, threshold) <= Max(1.0, d.n as real - 1.0)
  {
    if d.avg > 0.001 && DeltaOf(d) > threshold {
      MeanBetween(d, samples);
      MaxBelowSum(samples, d.max);
      var k := Max(1.0, d.n as real - 1.0);
      assert d.max - d.avg <= (d.n as real - 1.0) * d.avg;
      ScaleUp(d.avg, d.n as real - 1.0, k);
      ScaleUp(d.avg, 1.0, k);
      assert d.min in samples;
      DivideBound(DeltaOf(d), d.avg, k);
      DivideBound(-DeltaOf(d), d.avg, 0.0);
    }
  }

  lemma ScaleUp(x: real, a: real, b: real)
    requires x > 0.0 && a <= b
    ensures a * x <= b * x
  {
    assert (b - a) * x >= 0.0;
  }
}
