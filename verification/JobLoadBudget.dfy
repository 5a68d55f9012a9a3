// The acceptance gate of the job-runtime load test. Rates and latencies are
// reals; what the measurements mean is stated about the raw samples.
module JobLoadBudget {
  import opened Wrappers
  import opened Percentiles

  // What one load run measured.
  datatype Run = Run(
    submitted: nat,
    acknowledged: nat,
    durationMs: real,
    expectedQps: real,
    requiredMultiplier: real,
    enqueue: seq<real>,
    operationalReads: seq<real>,
    readyToStart: seq<real>,
    poolMax: int,
    poolPeak: int,
    poolWaiting: int,
    runtimePoolWaiting: int)

  // The figures of the report; None is a figure that is not a finite number,
  // or the percentile of an empty sample.
  datatype Report = Report(
    durationMs: real,
    expectedQps: real,
    loadMultiplier: Option<real>,
    requiredMultiplier: real,
    submitted: nat,
    acknowledged: nat,
    enqueueP95: Option<real>,
    enqueueP99: Option<real>,
    readP95: Option<real>,
    readyP95: Option<real>,
    poolMax: int,
    poolPeak: int,
    poolWaiting: int,
    runtimePoolWaiting: int)

  datatype Verdict =
    | Accepted
    | MultiplierFailed
    | DeliveryLoss
    | EnqueueLatency
    | ReadLatency
    | ReadyLatency
    | PoolBudget

  function Multiplier(run: Run): Option<real> {
    if run.durationMs == 0.0 || run.expectedQps == 0.0 then None
    else Some(run.submitted as real / (run.durationMs / 1000.0) / run.expectedQps)
  }

  function BuildReport(run: Run): Report {
    Report(run.durationMs, run.expectedQps, Multiplier(run), run.requiredMultiplier,
           run.submitted, run.acknowledged,
           Percentile(run.enqueue, 0.95), Percentile(run.enqueue, 0.99),
           Percentile(run.operationalReads, 0.95), Percentile(run.readyToStart, 0.95),
           run.poolMax, run.poolPeak, run.poolWaiting, run.runtimePoolWaiting)
  }

  // undefined >= bound is false in JavaScript.
  predicate Reaches(figure: Option<real>, bound: real) {
    figure.Some? && figure.value >= bound
  }

  function ExpectedSubmissions(durationMs: real, expectedQps: real): real {
    durationMs / 1000.0 * expectedQps
  }

  function Fraction(x: real): real {
    x - x.Floor as real
  }

  function Quantum(expected: real): real {
    if expected > 0.0 then Fraction(expected) / expected else 0.0
  }

  predicate TooSlow(multiplier: Option<real>, durationMs: real, expectedQps: real, required: real) {
    || multiplier.None?
    || multiplier.value + Quantum(ExpectedSubmissions(durationMs, expectedQps)) < required
  }

  function AssertBudgets(r: Report): Verdict {
    if TooSlow(r.loadMultiplier, r.durationMs, r.expectedQps, r.requiredMultiplier) then MultiplierFailed
    else if r.acknowledged != r.submitted then DeliveryLoss
    else if Reaches(r.enqueueP95, 100.0) || Reaches(r.enqueueP99, 250.0) then EnqueueLatency
    else if Reaches(r.readP95, 250.0) then ReadLatency
    else if Reaches(r.readyP95, 2000.0) then ReadyLatency
    else if r.poolPeak > r.poolMax - 4 || r.poolWaiting != 0 || r.runtimePoolWaiting != 0 then PoolBudget
    else Accepted
  }

  // --- throughput ----------------------------------------------------------

  lemma DivideOut(x: real, d: real, e: real)
    requires d > 0.0 && e > 0.0
    ensures x / d / e == x / (d * e)
  {
    var q := x / d / e;
    assert q * e == x / d;
    assert q * e * d == x;
    assert q * (d * e) == x;
    assert d * e > 0.0;
  }

  lemma QuotientsAdd(a: real, b: real, e: real)
    requires e > 0.0
    ensures a / e + b / e == (a + b) / e
  {
    var p := a / e;
    var q := b / e;
    assert (p + q) * e == p * e + q * e;
    assert p * e == a && q * e == b;
  }

  lemma ScaledComparison(a: real, b: real, e: real)
    requires e > 0.0
    ensures a / e < b <==> a < b * e
  {
    var q := a / e;
    assert q * e == a;
    assert (b - q) * e == b * e - a;
    if q < b {
      assert (b - q) * e > 0.0;
    } else {
      assert (q - b) * e >= 0.0;
      assert (q - b) * e == a - b * e;
    }
  }

  // The multiplier check in terms of counts: the fraction of a submission that
  // the run had no time for is forgiven, and nothing more.
  lemma MultiplierMeans(run: Run, expected: real)
    requires run.durationMs > 0.0 && run.expectedQps > 0.0
    requires expected == run.durationMs / 1000.0 * run.expectedQps
    ensures AssertBudgets(BuildReport(run)) == MultiplierFailed <==>
              run.submitted as real + (expected - expected.Floor as real) < run.requiredMultiplier * expected
  {
    TooSlowMeans(run.submitted, run.durationMs, run.expectedQps, run.requiredMultiplier, expected);
    assert Multiplier(run) == Some(run.submitted as real / (run.durationMs / 1000.0) / run.expectedQps);
  }

  lemma TooSlowMeans(submitted: nat, durationMs: real, qps: real, required: real, expected: real)
    requires durationMs > 0.0 && qps > 0.0 && expected == durationMs / 1000.0 * qps
    ensures TooSlow(Some(submitted as real / (durationMs / 1000.0) / qps), durationMs, qps, required) <==>
              submitted as real + (expected - expected.Floor as real) < required * expected
  {
    var d := durationMs / 1000.0;
    assert d > 0.0;
    ExpectedPositive(d, qps);
    SameComparison(submitted as real, d, qps, Fraction(expected), required);
  }

  lemma ExpectedPositive(d: real, qps: real)
    requires d > 0.0 && qps > 0.0
    ensures d * qps > 0.0
  {}

  lemma SameComparison(submitted: real, d: real, qps: real, fraction: real, required: real)
    requires d > 0.0 && qps > 0.0 && d * qps > 0.0
    ensures submitted / d / qps + fraction / (d * qps) < required <==> submitted + fraction < required * (d * qps)
  {
    DivideOut(submitted, d, qps);
    QuotientsAdd(submitted, fraction, d * qps);
    ScaledComparison(submitted + fraction, required, d * qps);
  }

  // A run that is accepted is never short by a whole submission.
  lemma NeverShortByOne(run: Run, expected: real)
    requires run.durationMs > 0.0 && run.expectedQps > 0.0
    requires expected == run.durationMs / 1000.0 * run.expectedQps
    ensures AssertBudgets(BuildReport(run)) != MultiplierFailed ==>
              run.submitted as real > run.requiredMultiplier * expected - 1.0
  {
    MultiplierMeans(run, expected);
  }

  // At multiplier 1 the check asks for exactly the whole submissions expected.
  lemma UnitMultiplier(run: Run, expected: real)
    requires run.durationMs > 0.0 && run.expectedQps > 0.0 && run.requiredMultiplier == 1.0
    requires expected == run.durationMs / 1000.0 * run.expectedQps
    ensures AssertBudgets(BuildReport(run)) != MultiplierFailed
       <==> run.submitted >= expected.Floor
  {
    MultiplierMeans(run, expected);
  }

  // --- acceptance -------------------------------------------------------------

  lemma ReachesMeans(sample: seq<real>, bound: real)
    ensures Reaches(Percentile(sample, 0.95), bound) <==> sample != [] && !NinetyFive(sample, bound)
    ensures Reaches(Percentile(sample, 0.99), bound) <==> sample != [] && !NinetyNine(sample, bound)
  {
    if sample != [] {
      PercentileUnder(sample, bound);
    }
  }

  // What an accepted run did, stated about its raw measurements. An empty
  // sample is not held to any bound.
  lemma AcceptedMeans(run: Run, expected: real)
    requires run.durationMs > 0.0 && run.expectedQps > 0.0
    requires expected == run.durationMs / 1000.0 * run.expectedQps
    ensures AssertBudgets(BuildReport(run)) == Accepted <==>
              && run.submitted as real + (expected - expected.Floor as real) >= run.requiredMultiplier * expected
              && run.acknowledged == run.submitted
              && (run.enqueue == [] || (NinetyFive(run.enqueue, 100.0) && NinetyNine(run.enqueue, 250.0)))
              && (run.operationalReads == [] || NinetyFive(run.operationalReads, 250.0))
              && (run.readyToStart == [] || NinetyFive(run.readyToStart, 2000.0))
              && run.poolPeak <= run.poolMax - 4
              && run.poolWaiting == 0 && run.runtimePoolWaiting == 0
  {
    MultiplierMeans(run, expected);
    ReachesMeans(run.enqueue, 100.0);
    ReachesMeans(run.enqueue, 250.0);
    ReachesMeans(run.operationalReads, 250.0);
    ReachesMeans(run.readyToStart, 2000.0);
  }
}
