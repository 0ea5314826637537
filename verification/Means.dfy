/** What a rollup says: the mean of exactly the samples in its window, component by component. */
module Means {
  import opened CpuHistory
  import opened Levels
  import N = Network
  import opened Pyramid

  // ------------------------------------------------------------------
  // Which samples a window holds.
  // ------------------------------------------------------------------

  /** The samples inside the window, each as often as it occurs. */
  lemma {:induction false} WindowHoldsInside<V>(log: seq<Sample<V>>, low: real, high: real, s: Sample<V>)
    ensures multiset(Window(log, low, high))[s] == if low <= s.time <= high then multiset(log)[s] else 0
  {
    if log != [] {
      var front, last := log[..|log| - 1], log[|log| - 1];
      assert log == front + [last];
      WindowHoldsInside(front, low, high, s);
    }
  }

  /** The window of a rollup reaches back one interval, and for live samples a little forward. */
  lemma WindowBounds(e: Entry, t: real)
    ensures Inside(t, Low(e), High(e)) <==> -e.interval <= t - e.time <= if e.historyIndex == 0 then 0.99 else 0.0
  {
  }

  /** The windows of one rollup and the next cover their two intervals, and share the whole second between them. */
  lemma WindowsTile(e: Entry, t: real)
    requires Integral(t) && Integral(e.time) && e.interval >= 1.0 && Integral(e.interval)
    requires e.nextTime == e.time + e.interval
    ensures Inside(t, Low(e), High(e)) || Inside(t, Low(Next(e)), High(Next(e)))
      <==> e.time - e.interval <= t <= e.time + e.interval
    ensures Inside(t, Low(e), High(e)) && Inside(t, Low(Next(e)), High(Next(e))) <==> t == e.time
  {
    IntegralSum(e.time, e.interval);
    if t > e.time {
      IntegralGap(e.time, t);
    }
    if t > e.nextTime {
      IntegralGap(e.nextTime, t);
    }
  }

  // ------------------------------------------------------------------
  // Sums and means of one component.
  // ------------------------------------------------------------------

  function Sum<V>(component: V -> real, samples: seq<Sample<V>>): real {
    if samples == [] then 0.0 else component(samples[0].values) + Sum(component, samples[1..])
  }

  lemma {:induction false} SumOfTwo<V>(component: V -> real, a: seq<Sample<V>>, b: seq<Sample<V>>)
    ensures Sum(component, a + b) == Sum(component, a) + Sum(component, b)
  {
    if a == [] {
      assert a + b == b;
    } else {
      assert (a + b)[1..] == a[1..] + b;
      SumOfTwo(component, a[1..], b);
    }
  }

  ghost predicate MeanOf(mean: real, count: nat, sum: real) {
    mean * count as real == sum
  }

  /** A component is added and divided like a number. */
  ghost predicate Linear<V(!new)>(arithmetic: Arithmetic<V>, component: V -> real) {
    && component(arithmetic.zero) == 0.0
    && (forall a, b :: component(arithmetic.add(a, b)) == component(a) + component(b))
    && (forall a, n: nat | n > 0 :: MeanOf(component(arithmetic.over(a, n)), n, component(a)))
  }

  lemma {:induction false} TotalIsSum<V(!new)>(
    arithmetic: Arithmetic<V>, component: V -> real, samples: seq<Sample<V>>)
    requires Linear(arithmetic, component)
    ensures component(Total(arithmetic, samples)) == Sum(component, samples)
  {
    if samples != [] {
      var front, last := samples[..|samples| - 1], samples[|samples| - 1];
      TotalIsSum(arithmetic, component, front);
      SumOfTwo(component, front, [last]);
      assert samples == front + [last] && [last][1..] == [];
    }
  }

  /** The component of a rollup, times the number of samples in its window, is the sum over the window. */
  lemma ComponentIsMean<V(!new)>(
    arithmetic: Arithmetic<V>, component: V -> real, e: Entry, source: seq<Sample<V>>)
    requires Linear(arithmetic, component)
    ensures var window := Window(source, Low(e), High(e));
            MeanOf(component(Rollup(arithmetic, e, source).values), |window|, Sum(component, window))
  {
    var window := Window(source, Low(e), High(e));
    TotalIsSum(arithmetic, component, window);
    if window == [] {
      NothingTimes(component(arithmetic.zero));
    }
  }

  lemma NothingTimes(a: real)
    ensures MeanOf(a, 0, 0.0)
  {
    assert a * 0.0 == 0.0;
  }

  /** n times a, by addition alone. */
  function Multiple(a: real, n: nat): real {
    if n == 0 then 0.0 else a + Multiple(a, n - 1)
  }

  lemma {:induction false} MultipleIsProduct(a: real, n: nat)
    ensures Multiple(a, n) == a * n as real
  {
    if n == 0 {
      assert a * 0.0 == 0.0;
    } else {
      var before := (n - 1) as real;
      MultipleIsProduct(a, n - 1);
      assert n as real == before + 1.0;
      assert a * (before + 1.0) == a * before + a;
    }
  }

  lemma {:induction false} SumIsBetween<V>(component: V -> real, samples: seq<Sample<V>>, low: real, high: real)
    requires forall s | s in samples :: low <= component(s.values) <= high
    ensures Multiple(low, |samples|) <= Sum(component, samples) <= Multiple(high, |samples|)
  {
    if samples != [] {
      assert forall s | s in samples[1..] :: s in samples;
      SumIsBetween(component, samples[1..], low, high);
      assert samples[0] in samples;
    }
  }

  lemma Smaller(a: real, b: real, n: real)
    requires n > 0.0 && a * n <= b * n
    ensures a <= b
  {
    assert a == a * n / n && b == b * n / n;
  }

  lemma MeanIsBetween(mean: real, count: nat, sum: real, low: real, high: real)
    requires count > 0 && MeanOf(mean, count, sum) && Multiple(low, count) <= sum <= Multiple(high, count)
    ensures low <= mean <= high
  {
    MultipleIsProduct(low, count);
    MultipleIsProduct(high, count);
    Smaller(low, mean, count as real);
    Smaller(mean, high, count as real);
  }

  lemma InWindow<V>(log: seq<Sample<V>>, low: real, high: real, s: Sample<V>)
    requires s in Window(log, low, high)
    ensures s in log && Inside(s.time, low, high)
  {
    WindowHoldsInside(log, low, high, s);
    assert s in multiset(Window(log, low, high));
    assert s in multiset(log);
  }

  /** So a rollup that is not empty lies between the smallest and the largest sample of its window. */
  lemma ComponentIsBetween<V(!new)>(
    arithmetic: Arithmetic<V>, component: V -> real, e: Entry, source: seq<Sample<V>>, low: real, high: real)
    requires Linear(arithmetic, component) && !Rollup(arithmetic, e, source).empty
    requires forall s | s in source && Inside(s.time, Low(e), High(e)) :: low <= component(s.values) <= high
    ensures low <= component(Rollup(arithmetic, e, source).values) <= high
  {
    var window := Window(source, Low(e), High(e));
    forall w | w in window ensures low <= component(w.values) <= high {
      InWindow(source, Low(e), High(e), w);
    }
    ComponentIsMean(arithmetic, component, e, source);
    SumIsBetween(component, window, low, high);
    MeanIsBetween(component(Rollup(arithmetic, e, source).values), |window|, Sum(component, window), low, high);
  }

  // ------------------------------------------------------------------
  // The two collectors.
  // ------------------------------------------------------------------

  function User(c: Cpu): real { c.u }

  function System(c: Cpu): real { c.s }

  function Nice(c: Cpu): real { c.n }

  function Wait(c: Cpu): real { c.io }

  lemma Quotient(a: real, n: nat)
    requires n > 0
    ensures MeanOf(a / n as real, n, a)
  {
  }

  lemma CpuIsLinear()
    ensures Linear(CPU, User) && Linear(CPU, System) && Linear(CPU, Nice) && Linear(CPU, Wait)
  {
    forall a: Cpu, n: nat | n > 0
      ensures MeanOf(User(CPU.over(a, n)), n, a.u) && MeanOf(System(CPU.over(a, n)), n, a.s)
      ensures MeanOf(Nice(CPU.over(a, n)), n, a.n) && MeanOf(Wait(CPU.over(a, n)), n, a.io)
    {
      Quotient(a.u, n);
      Quotient(a.s, n);
      Quotient(a.n, n);
      Quotient(a.io, n);
    }
  }

  /** A CPU rollup is empty exactly if its window is, and otherwise each share is the mean over the window. */
  lemma CpuRollupIsMean(e: Entry, source: seq<Sample<Cpu>>)
    ensures var s, window := Rollup(CPU, e, source), Window(source, Low(e), High(e));
            && s.sampleID == e.sampleID && s.time == e.time && (s.empty <==> window == [])
            && MeanOf(s.values.u, |window|, Sum(User, window)) && MeanOf(s.values.s, |window|, Sum(System, window))
            && MeanOf(s.values.n, |window|, Sum(Nice, window)) && MeanOf(s.values.io, |window|, Sum(Wait, window))
  {
    CpuIsLinear();
    ComponentIsMean(CPU, User, e, source);
    ComponentIsMean(CPU, System, e, source);
    ComponentIsMean(CPU, Nice, e, source);
    ComponentIsMean(CPU, Wait, e, source);
  }

  function Upload(n: N.Net): real { n.u }

  function Download(n: N.Net): real { n.d }

  lemma NetIsLinear()
    ensures Linear(N.NET, Upload) && Linear(N.NET, Download)
  {
    forall a: N.Net, n: nat | n > 0
      ensures MeanOf(Upload(N.NET.over(a, n)), n, a.u) && MeanOf(Download(N.NET.over(a, n)), n, a.d)
    {
      Quotient(a.u, n);
      Quotient(a.d, n);
    }
  }

  /** The same for an interface. */
  lemma NetRollupIsMean(e: Entry, source: seq<Sample<N.Net>>)
    ensures var s, window := Rollup(N.NET, e, source), Window(source, Low(e), High(e));
            && s.sampleID == e.sampleID && s.time == e.time && (s.empty <==> window == [])
            && MeanOf(s.values.u, |window|, Sum(Upload, window))
            && MeanOf(s.values.d, |window|, Sum(Download, window))
  {
    NetIsLinear();
    ComponentIsMean(N.NET, Upload, e, source);
    ComponentIsMean(N.NET, Download, e, source);
  }
}
