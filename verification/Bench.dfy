/**
 The benchmark's ratio algebra (scripts/bench.py:155-252): repeated samples are
 averaged, each backend's mean is divided by the host's, and ratios that grew
 past a factor are reported. Times are reals: rounding is not modelled.
 */
module Bench {
  datatype Key = Key(backend: string, metric: string)

  datatype Sample = Sample(key: Key, seconds: real)

  type Means = map<Key, real>

  /** metric to backend to ratio */
  type Ratios = map<string, map<string, real>>

  const HOST := "host"

  // ---- Means ---------------------------------------------------------------------------

  function Values(samples: seq<Sample>, key: Key): seq<real> {
    if samples == [] then []
    else
      var last := samples[|samples| - 1];
      Values(samples[..|samples| - 1], key) + if last.key == key then [last.seconds] else []
  }

  function Sum(xs: seq<real>): real { if xs == [] then 0.0 else Sum(xs[..|xs| - 1]) + xs[|xs| - 1] }

  /** A mean is what its values would all be if they were equal; sums and values are read sample by sample. */
  lemma MeanExactly(xs: seq<real>, x: real, samples: seq<Sample>, s: Sample, key: Key)
    ensures xs != [] ==> |xs| as real * Mean(xs) == Sum(xs)
    ensures Sum([]) == 0.0 && Sum(xs + [x]) == Sum(xs) + x
    ensures Values([], key) == []
    ensures Values(samples + [s], key) == Values(samples, key) + if s.key == key then [s.seconds] else []
  {
    assert (xs + [x])[..|xs|] == xs && (samples + [s])[..|samples|] == samples;
    if xs != [] { Undivided(Sum(xs), |xs| as real); }
  }

  lemma Undivided(s: real, n: real)
    requires n != 0.0
    ensures n * (s / n) == s
  {
  }

  function KeysOf(samples: seq<Sample>): set<Key> { set s | s in samples :: s.key }

  lemma {:induction false} Measured(samples: seq<Sample>, key: Key)
    ensures Values(samples, key) != [] <==> key in KeysOf(samples)
  {
    if samples == [] {
    } else {
      var front, last := samples[..|samples| - 1], samples[|samples| - 1];
      Measured(front, key);
      assert samples == front + [last];
      assert KeysOf(samples) == KeysOf(front) + {last.key};
    }
  }

  function Mean(xs: seq<real>): real
    requires xs != []
  {
    Sum(xs) / |xs| as real
  }

  ghost predicate IsMeans(samples: seq<Sample>, m: Means) {
    m.Keys == KeysOf(samples) && forall k | k in m :: Values(samples, k) != [] && m[k] == Mean(Values(samples, k))
  }

  method Aggregate(samples: seq<Sample>) returns (m: Means)
    ensures IsMeans(samples, m)
  {
    var grouped: map<Key, seq<real>> := map[];
    for i := 0 to |samples|
      invariant grouped.Keys == KeysOf(samples[..i])
      invariant forall k | k in grouped :: grouped[k] == Values(samples[..i], k) && grouped[k] != []
    {
      var s := samples[i];
      assert samples[..i + 1][..i] == samples[..i] && samples[..i + 1] == samples[..i] + [s];
      Measured(samples[..i], s.key);
      grouped := grouped[s.key := (if s.key in grouped then grouped[s.key] else []) + [s.seconds]];
    }
    assert samples[..|samples|] == samples;
    m := map k | k in grouped :: Mean(grouped[k]);
  }

  // ---- Ratios ------------------------------------------------------------------------------

  predicate HasBase(m: Means, metric: string) { Key(HOST, metric) in m && m[Key(HOST, metric)] != 0.0 }

  function Ratio(m: Means, backend: string, metric: string): real
    requires HasBase(m, metric) && Key(backend, metric) in m
  {
    m[Key(backend, metric)] / m[Key(HOST, metric)]
  }

  /** Exactly the metrics with a non-zero host mean, each with every backend measured for it. */
  ghost predicate IsRatios(m: Means, r: Ratios) {
    && (forall metric :: metric in r <==> HasBase(m, metric))
    && (forall metric, backend | metric in r :: backend in r[metric] <==> Key(backend, metric) in m)
    && (forall metric, backend | metric in r && backend in r[metric] ::
          HasBase(m, metric) && Key(backend, metric) in m && r[metric][backend] == Ratio(m, backend, metric))
  }

  method ComputeRatios(m: Means) returns (r: Ratios)
    ensures IsRatios(m, r)
  {
    var metrics := set k | k in m :: k.metric;
    var todo := metrics;
    r := map[];
    while todo != {}
      invariant todo <= metrics
      invariant forall metric :: metric in r <==> metric in metrics && metric !in todo && HasBase(m, metric)
      invariant forall metric, backend | metric in r :: backend in r[metric] <==> Key(backend, metric) in m
      invariant forall metric, backend | metric in r && backend in r[metric] ::
                  Key(backend, metric) in m && r[metric][backend] == Ratio(m, backend, metric)
    {
      var metric :| metric in todo;
      todo := todo - {metric};
      if HasBase(m, metric) {
        var base := m[Key(HOST, metric)];
        var backends := set k | k in m && k.metric == metric :: k.backend;
        forall backend ensures backend in backends <==> Key(backend, metric) in m {
          if Key(backend, metric) in m { assert Key(backend, metric).backend in backends; }
        }
        r := r[metric := map backend | backend in backends :: m[Key(backend, metric)] / base];
      }
    }
    forall metric | HasBase(m, metric) ensures metric in metrics { assert Key(HOST, metric).metric in metrics; }
  }

  /** Each ratio times the host's mean is the backend's mean. */
  lemma RatiosSay(m: Means, r: Ratios, backend: string, metric: string)
    requires IsRatios(m, r)
    ensures metric in r <==> Key("host", metric) in m && m[Key("host", metric)] != 0.0
    ensures metric in r ==> (backend in r[metric] <==> Key(backend, metric) in m)
    ensures metric in r && backend in r[metric] ==>
              r[metric][backend] * m[Key("host", metric)] == m[Key(backend, metric)]
  {
    if metric in r && backend in r[metric] { Undivided(m[Key(backend, metric)], m[Key(HOST, metric)]); }
  }

  // ---- Regressions ------------------------------------------------------------------------------

  datatype Regression = Regression(key: Key, current: real, baseline: real, factor: real)

  predicate Compared(current: Ratios, baseline: Ratios, k: Key) {
    && k.metric in current && k.backend in current[k.metric]
    && k.metric in baseline && k.backend in baseline[k.metric] && baseline[k.metric][k.backend] != 0.0
  }

  function RegressionAt(current: Ratios, baseline: Ratios, k: Key): (r: Regression)
    requires Compared(current, baseline, k)
    ensures r.key == k
  {
    var now, before := current[k.metric][k.backend], baseline[k.metric][k.backend];
    Regression(k, now, before, now / before)
  }

  predicate Regressed(current: Ratios, baseline: Ratios, factor: real, k: Key) {
    Compared(current, baseline, k) && RegressionAt(current, baseline, k).factor > factor
  }

  ghost predicate Descending(rs: seq<Regression>) { forall i, j | 0 <= i < j < |rs| :: rs[i].factor >= rs[j].factor }

  predicate Has(rs: seq<Regression>, k: Key) { exists i | 0 <= i < |rs| :: rs[i].key == k }

  /** Findings with their right numbers, each pair once, worst first. */
  ghost predicate Listed(current: Ratios, baseline: Ratios, rs: seq<Regression>) {
    && (forall r | r in rs :: Compared(current, baseline, r.key) && r == RegressionAt(current, baseline, r.key))
    && (forall i, j | 0 <= i < j < |rs| :: rs[i].key != rs[j].key)
    && Descending(rs)
  }

  /** A list of exactly the pairs that regressed. */
  ghost predicate IsReport(current: Ratios, baseline: Ratios, factor: real, rs: seq<Regression>) {
    Listed(current, baseline, rs) && forall k :: Has(rs, k) <==> Regressed(current, baseline, factor, k)
  }

  /** What a report says: for each pair whose ratio grew by more than the factor, once and worst first, this run's
      ratio, the baseline's, and how many times the one is the other. */
  lemma ReportSays(current: Ratios, baseline: Ratios, factor: real, rs: seq<Regression>, backend: string,
                   metric: string)
    requires IsReport(current, baseline, factor, rs)
    ensures (exists i | 0 <= i < |rs| :: rs[i].key == Key(backend, metric)) <==>
              && metric in current && backend in current[metric] && metric in baseline && backend in baseline[metric]
              && baseline[metric][backend] != 0.0 && current[metric][backend] / baseline[metric][backend] > factor
    ensures forall i | 0 <= i < |rs| && rs[i].key == Key(backend, metric) ::
              && rs[i].current == current[metric][backend] && rs[i].baseline == baseline[metric][backend]
              && rs[i].factor * rs[i].baseline == rs[i].current
    ensures forall i, j | 0 <= i < j < |rs| :: rs[i].factor >= rs[j].factor && rs[i].key != rs[j].key
  {
    var k := Key(backend, metric);
    assert Has(rs, k) <==> Regressed(current, baseline, factor, k);
    forall i | 0 <= i < |rs| && rs[i].key == k ensures rs[i] == RegressionAt(current, baseline, k) {
      assert rs[i] in rs;
    }
    if Compared(current, baseline, k) { Undivided(current[metric][backend], baseline[metric][backend]); }
  }

  /** Where a new finding goes: before the first entry with a smaller factor, as a stable sort puts it. */
  method InsertSorted(rs: seq<Regression>, r: Regression) returns (out: seq<Regression>)
    requires Descending(rs)
    ensures Descending(out)
    ensures exists at | 0 <= at <= |rs| :: out == rs[..at] + [r] + rs[at..]
  {
    var at := |rs|;
    while at > 0 && rs[at - 1].factor < r.factor
      invariant 0 <= at <= |rs|
      invariant forall i | at <= i < |rs| :: rs[i].factor < r.factor
    {
      at := at - 1;
    }
    out := rs[..at] + [r] + rs[at..];
  }

  /** What has been found after looking at the keys in `seen`. */
  ghost predicate FoundIn(current: Ratios, baseline: Ratios, factor: real, rs: seq<Regression>, seen: set<Key>) {
    Listed(current, baseline, rs) && forall k :: Has(rs, k) <==> k in seen && Regressed(current, baseline, factor, k)
  }

  lemma HasInserted(rs: seq<Regression>, r: Regression, out: seq<Regression>, at: nat, j: Key)
    requires at <= |rs| && out == rs[..at] + [r] + rs[at..]
    ensures Has(out, j) <==> Has(rs, j) || j == r.key
  {
    assert out[at] == r;
    if Has(rs, j) {
      var i :| 0 <= i < |rs| && rs[i].key == j;
      assert out[if i < at then i else i + 1].key == j;
    }
  }

  lemma ListedInserted(current: Ratios, baseline: Ratios, rs: seq<Regression>, r: Regression, out: seq<Regression>,
      at: nat)
    requires Listed(current, baseline, rs) && Compared(current, baseline, r.key)
        && r == RegressionAt(current, baseline, r.key)
    requires at <= |rs| && out == rs[..at] + [r] + rs[at..] && Descending(out) && !Has(rs, r.key)
    ensures Listed(current, baseline, out)
  {
    hide Compared, RegressionAt, Descending;
    forall q | q in out ensures q in rs || q == r {}
    assert forall i | 0 <= i < at :: out[i] == rs[i];
    assert forall i | at < i < |out| :: out[i] == rs[i - 1];
    forall i | 0 <= i < |rs| ensures rs[i].key != r.key {}
  }

  lemma FoundGrows(current: Ratios, baseline: Ratios, factor: real, rs: seq<Regression>, seen: set<Key>, k: Key,
                   out: seq<Regression>, at: nat)
    requires FoundIn(current, baseline, factor, rs, seen) && k !in seen && Regressed(current, baseline, factor, k)
    requires at <= |rs| && out == rs[..at] + [RegressionAt(current, baseline, k)] + rs[at..] && Descending(out)
    ensures FoundIn(current, baseline, factor, out, seen + {k})
  {
    assert Compared(current, baseline, k);
    hide Compared, Regressed, RegressionAt, Descending, Listed, Has;
    ListedInserted(current, baseline, rs, RegressionAt(current, baseline, k), out, at);
    forall j ensures Has(out, j) <==> Has(rs, j) || j == k {
      HasInserted(rs, RegressionAt(current, baseline, k), out, at, j);
    }
  }

  method DetectRegressions(current: Ratios, baseline: Ratios, factor: real) returns (rs: seq<Regression>)
    ensures IsReport(current, baseline, factor, rs)
  {
    var keys := set metric, backend | metric in current && backend in current[metric] :: Key(backend, metric);
    var todo := keys;
    ghost var seen: set<Key> := {};
    rs := [];
    while todo != {}
      invariant seen == keys - todo && todo <= keys
      invariant FoundIn(current, baseline, factor, rs, seen)
    {
      var k :| k in todo;
      todo := todo - {k};
      if Regressed(current, baseline, factor, k) {
        var out := InsertSorted(rs, RegressionAt(current, baseline, k));
        ghost var at :| 0 <= at <= |rs| && out == rs[..at] + [RegressionAt(current, baseline, k)] + rs[at..];
        FoundGrows(current, baseline, factor, rs, seen, k, out, at);
        rs := out;
      }
      seen := seen + {k};
    }
    forall k | Regressed(current, baseline, factor, k) ensures k in keys {
      assert Key(k.backend, k.metric) in keys;
    }
  }

  // ---- Runner speed cancels --------------------------------------------------------------------

  function Stretch(c: real, x: real): real { c * x }

  /** The same run with the times of the backends in `slow` scaled. */
  function Scale(samples: seq<Sample>, slow: set<string>, c: real): seq<Sample> {
    if samples == [] then []
    else
      var last := samples[|samples| - 1];
      Scale(samples[..|samples| - 1], slow, c)
      + [if last.key.backend in slow then last.(seconds := Stretch(c, last.seconds)) else last]
  }

  function Times(c: real, xs: seq<real>): seq<real> {
    if xs == [] then [] else Times(c, xs[..|xs| - 1]) + [Stretch(c, xs[|xs| - 1])]
  }

  lemma {:induction false} SumTimes(c: real, xs: seq<real>)
    ensures |Times(c, xs)| == |xs| && Sum(Times(c, xs)) == Stretch(c, Sum(xs))
  {
    if xs == [] {
    } else {
      var front := xs[..|xs| - 1];
      SumTimes(c, front);
      assert Times(c, xs)[..|xs| - 1] == Times(c, front);
    }
  }

  lemma {:induction false} ScaledValues(samples: seq<Sample>, slow: set<string>, c: real, key: Key)
    ensures |Scale(samples, slow, c)| == |samples|
    ensures Values(Scale(samples, slow, c), key) == if key.backend in slow then Times(c, Values(samples, key))
        else Values(samples, key)
  {
    hide Stretch;
    if samples == [] {
    } else {
      var front, last := samples[..|samples| - 1], samples[|samples| - 1];
      ScaledValues(front, slow, c, key);
      assert Scale(samples, slow, c)[..|samples| - 1] == Scale(front, slow, c);
      var more := Scale(samples, slow, c);
      assert more[|samples| - 1].key == last.key;
      if last.key == key {
        var xs := Values(samples, key);
        assert xs[..|xs| - 1] == Values(front, key) && xs[|xs| - 1] == last.seconds;
        assert Values(more, key) == Values(Scale(front, slow, c), key) + [more[|samples| - 1].seconds];
      } else {
        assert Values(samples, key) == Values(front, key);
        assert Values(more, key) == Values(Scale(front, slow, c), key);
      }
    }
  }

  lemma DivideOut(c: real, s: real, n: real)
    requires n != 0.0
    ensures Stretch(c, s) / n == Stretch(c, s / n)
  {
  }

  lemma StretchedMean(c: real, xs: seq<real>, ys: seq<real>)
    requires xs != [] && |ys| == |xs| && Sum(ys) == Stretch(c, Sum(xs))
    ensures Mean(ys) == Stretch(c, Mean(xs))
  {
    hide Sum, Stretch;
    DivideOut(c, Sum(xs), |xs| as real);
  }

  lemma ScaledMean(samples: seq<Sample>, slow: set<string>, c: real, k: Key)
    ensures k in KeysOf(Scale(samples, slow, c)) <==> k in KeysOf(samples)
    ensures Values(samples, k) != [] ==>
              && Values(Scale(samples, slow, c), k) != []
              && Mean(Values(Scale(samples, slow, c), k)) ==
                   if k.backend in slow then Stretch(c, Mean(Values(samples, k))) else Mean(Values(samples, k))
  {
    hide Mean, Scale, Values, Stretch, Sum, Times, KeysOf;
    var xs := Values(samples, k);
    ScaledValues(samples, slow, c, k);
    Measured(samples, k);
    Measured(Scale(samples, slow, c), k);
    SumTimes(c, xs);
    if xs != [] { StretchedMean(c, xs, Times(c, xs)); }
  }

  /** A mean scales with its backend's samples. */
  lemma ScaledMeans(samples: seq<Sample>, slow: set<string>, c: real, m: Means, m': Means)
    requires IsMeans(samples, m) && IsMeans(Scale(samples, slow, c), m')
    ensures m'.Keys == m.Keys
    ensures forall k | k in m :: m'[k] == if k.backend in slow then Stretch(c, m[k]) else m[k]
  {
    hide Mean, Values, Scale, KeysOf, Stretch;
    forall k
      ensures k in m <==> k in m'
      ensures k in m ==> m'[k] == if k.backend in slow then Stretch(c, m[k]) else m[k]
    {
      ScaledMean(samples, slow, c, k);
    }
  }

  lemma CommonFactorCancels(c: real, x: real, y: real)
    requires c != 0.0 && y != 0.0
    ensures c * y != 0.0 && (c * x) / (c * y) == x / y
  {
    var q := x / y;
    assert x == q * y;
    assert c * x == q * (c * y);
  }

  /** A ratio does not see a factor common to its backend and the host. */
  lemma RatioUnchanged(m: Means, m': Means, c: real, backend: string, metric: string)
    requires c != 0.0 && HasBase(m, metric) && Key(backend, metric) in m
    requires m'.Keys == m.Keys
    requires m'[Key(HOST, metric)] == Stretch(c, m[Key(HOST, metric)])
        && m'[Key(backend, metric)] == Stretch(c, m[Key(backend, metric)])
    ensures HasBase(m', metric) && Ratio(m', backend, metric) == Ratio(m, backend, metric)
  {
    CommonFactorCancels(c, m[Key(backend, metric)], m[Key(HOST, metric)]);
  }

  lemma BaseIsKey(m: Means, metric: string)
    requires HasBase(m, metric)
    ensures Key(HOST, metric) in m
  {
  }

  lemma SameBases(m: Means, m': Means, c: real, metric: string)
    requires c != 0.0 && m'.Keys == m.Keys && forall k | k in m :: m'[k] == Stretch(c, m[k])
    ensures HasBase(m, metric) <==> HasBase(m', metric)
  {
  }

  lemma SameAt(m: Means, m': Means, c: real, r: Ratios, r': Ratios, metric: string)
    requires c != 0.0 && m'.Keys == m.Keys && (forall k | k in m :: m'[k] == Stretch(c, m[k]))
    requires IsRatios(m, r) && IsRatios(m', r')
    ensures metric in r <==> metric in r'
    ensures metric in r ==> r[metric] == r'[metric]
  {
    hide Ratio, HasBase, Stretch;
    SameBases(m, m', c, metric);
    if metric in r {
      BaseIsKey(m, metric);
      forall backend | backend in r[metric] ensures r[metric][backend] == r'[metric][backend] {
        RatioUnchanged(m, m', c, backend, metric);
      }
      assert r[metric].Keys == r'[metric].Keys;
    }
  }

  lemma AllCovered(samples: seq<Sample>, all: set<string>, m: Means)
    requires IsMeans(samples, m) && forall s | s in samples :: s.key.backend in all
    ensures forall k | k in m :: k.backend in all
  {
  }

  /** A runner uniformly faster or slower, by any factor above zero, has the very same ratios. */
  lemma RunnerSpeedCancels(samples: seq<Sample>, all: set<string>, c: real, m: Means, m': Means, r: Ratios, r': Ratios)
    requires c > 0.0 && (forall s | s in samples :: s.key.backend in all)
    requires IsMeans(samples, m) && IsMeans(Scale(samples, all, c), m') && IsRatios(m, r) && IsRatios(m', r')
    ensures r == r'
  {
    hide IsMeans, IsRatios, Scale, Stretch;
    ScaledMeans(samples, all, c, m, m');
    AllCovered(samples, all, m);
    forall metric
      ensures metric in r <==> metric in r'
      ensures metric in r ==> r[metric] == r'[metric]
    {
      SameAt(m, m', c, r, r', metric);
    }
  }

  /** The host regresses against itself exactly when the factor is below one and some metric is in both runs. */
  lemma HostReportedExactly(m: Means, m': Means, current: Ratios, baseline: Ratios, factor: real, rs: seq<Regression>)
    requires IsRatios(m, current) && IsRatios(m', baseline) && IsReport(current, baseline, factor, rs)
    ensures (exists i | 0 <= i < |rs| :: rs[i].key.backend == HOST)
      <==> factor < 1.0 && exists metric :: metric in current && metric in baseline
  {
    forall metric | metric in current && metric in baseline
      ensures current[metric][HOST] == 1.0 && baseline[metric][HOST] == 1.0
      ensures Regressed(current, baseline, factor, Key(HOST, metric)) <==> factor < 1.0
    {
      assert HasBase(m, metric) && HasBase(m', metric);
    }
    if i :| 0 <= i < |rs| && rs[i].key.backend == HOST {
      assert Regressed(current, baseline, factor, rs[i].key);
      assert rs[i].key == Key(HOST, rs[i].key.metric);
    }
    if factor < 1.0 {
      if metric :| metric in current && metric in baseline {
        assert Regressed(current, baseline, factor, Key(HOST, metric));
      }
    }
  }

  /** By what a scaling multiplies a backend's times. */
  function Slowness(slow: set<string>, c: real, backend: string): real { if backend in slow then c else 1.0 }

  lemma StretchedRatio(b: real, h: real, x: real, base: real)
    requires base != 0.0 && h != 0.0
    ensures Stretch(h, base) != 0.0
    ensures Stretch(b, x) / Stretch(h, base) == Stretch(b / h, x / base)
  {
    var q, r := x / base, b / h;
    assert x == q * base && b == r * h;
    assert b * x == (r * h) * (q * base) == (r * q) * (h * base);
  }

  lemma RatioOfScaled(m: Means, m': Means, b: real, h: real, k: Key)
    requires m'.Keys == m.Keys && HasBase(m, k.metric) && k in m && h != 0.0
    requires m'[Key(HOST, k.metric)] == Stretch(h, m[Key(HOST, k.metric)]) && m'[k] == Stretch(b, m[k])
    ensures HasBase(m', k.metric)
    ensures Ratio(m', k.backend, k.metric) == Stretch(b / h, Ratio(m, k.backend, k.metric))
    ensures Ratio(m, k.backend, k.metric) == 0.0 <==> m[k] == 0.0
  {
    var base := m[Key(HOST, k.metric)];
    assert k == Key(k.backend, k.metric);
    StretchedRatio(b, h, m[k], base);
    hide Stretch;
    assert m[k] == Ratio(m, k.backend, k.metric) * base;
  }

  lemma Growth(ratio: real, c: real)
    requires ratio != 0.0
    ensures Stretch(c, ratio) / ratio == c
  {
    DivideOut(c, ratio, ratio);
  }

  lemma SameBase(m: Means, m': Means, h: real, metric: string)
    requires m'.Keys == m.Keys && h != 0.0
    requires Key(HOST, metric) in m ==> m'[Key(HOST, metric)] == Stretch(h, m[Key(HOST, metric)])
    ensures HasBase(m, metric) <==> HasBase(m', metric)
  {
  }

  /** What is reported of one pair, from the means alone. */
  lemma RegressedFromMeans(m: Means, m': Means, before: Ratios, after: Ratios, factor: real, k: Key)
    requires IsRatios(m, before) && IsRatios(m', after) && m'.Keys == m.Keys
    requires HasBase(m, k.metric) <==> HasBase(m', k.metric)
    ensures Regressed(after, before, factor, k)
      <==> && k in m && HasBase(m, k.metric) && Ratio(m, k.backend, k.metric) != 0.0
           && Ratio(m', k.backend, k.metric) / Ratio(m, k.backend, k.metric) > factor
  {
    hide Ratio, HasBase;
    assert k == Key(k.backend, k.metric);
  }

  lemma ScaledBy(samples: seq<Sample>, slow: set<string>, c: real, m: Means, m': Means, k: Key)
    requires IsMeans(samples, m) && IsMeans(Scale(samples, slow, c), m')
    ensures m'.Keys == m.Keys && (k in m ==> m'[k] == Stretch(Slowness(slow, c, k.backend), m[k]))
  {
    hide IsMeans, Scale;
    ScaledMeans(samples, slow, c, m, m');
  }

  /** A run in which some backends, the host among them or not, got `c` times slower is reported for exactly the
      measured pairs whose own slowdown exceeds the host's by more than the factor. */
  lemma SlowdownIsCaughtExactly(samples: seq<Sample>, slow: set<string>, c: real, factor: real, m: Means, m': Means,
                                before: Ratios, after: Ratios, k: Key)
    requires HOST in slow ==> c != 0.0
    requires IsMeans(samples, m) && IsMeans(Scale(samples, slow, c), m') && IsRatios(m, before) && IsRatios(m', after)
    ensures Regressed(after, before, factor, k)
      <==> && k in m && HasBase(m, k.metric) && m[k] != 0.0
           && Slowness(slow, c, k.backend) / Slowness(slow, c, HOST) > factor
  {
    hide IsMeans, IsRatios, Ratio, Scale, Stretch, Regressed, HasBase;
    var b, h := Slowness(slow, c, k.backend), Slowness(slow, c, HOST);
    ScaledBy(samples, slow, c, m, m', k);
    ScaledBy(samples, slow, c, m, m', Key(HOST, k.metric));
    SameBase(m, m', h, k.metric);
    RegressedFromMeans(m, m', before, after, factor, k);
    if HasBase(m, k.metric) && k in m {
      BaseIsKey(m, k.metric);
      RatioOfScaled(m, m', b, h, k);
      if Ratio(m, k.backend, k.metric) != 0.0 { Growth(Ratio(m, k.backend, k.metric), b / h); }
    }
  }
}
