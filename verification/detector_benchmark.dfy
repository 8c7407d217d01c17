/** The detector benchmark of src/detector_benchmark.rs: a two-pointer comparison of sorted lists,
    scores in basis points and the pass decision.  The comparison is held against multiset
    difference and intersection, the scores against the totals they summarise, and the pass
    decision against what every reviewed case expected and what was detected for it.
  */
module DetectorBenchmark {
  import opened Json
  import opened Sorting

  const SCALE: nat := 10000

  /** The largest 64-bit `usize`. */
  const USIZE_MAX: nat := 0xFFFF_FFFF_FFFF_FFFF

  datatype Comparison<T> = Comparison(expected: nat, detected: nat, matched: nat, missing: seq<T>, unexpected: seq<T>)

  datatype Metric = Metric(expected: nat, detected: nat, matched: nat, precision: nat, recall: nat)

  // ------------------------------------------------------------------------- comparison

  /** What a comparison means: multiset arithmetic on the two lists. */
  ghost predicate Compares<T>(c: Comparison<T>, expected: seq<T>, detected: seq<T>) {
    && c.expected == |expected| && c.detected == |detected|
    && multiset(c.missing) == multiset(expected) - multiset(detected)
    && multiset(c.unexpected) == multiset(detected) - multiset(expected)
    && c.matched == |multiset(expected) * multiset(detected)|
    && c.matched + |c.missing| == c.expected
    && c.matched + |c.unexpected| == c.detected
  }

  lemma HeadIsMissing<T(!new)>(es: seq<T>, ds: seq<T>, le: (T, T) -> bool)
    requires TotalOrder(le) && Sorted(ds, le) && es != [] && ds != []
    requires le(es[0], ds[0]) && es[0] != ds[0]
    ensures multiset(es) - multiset(ds) == multiset{es[0]} + (multiset(es[1..]) - multiset(ds))
    ensures multiset(ds) - multiset(es) == multiset(ds) - multiset(es[1..])
  {
    assert es == [es[0]] + es[1..];
    assert es[0] !in ds by {
      assert forall j | 0 < j < |ds| :: le(ds[0], ds[j]);
    }
    assert es[0] !in multiset(ds);
  }

  lemma HeadsMatch<T>(es: seq<T>, ds: seq<T>)
    requires es != [] && ds != [] && es[0] == ds[0]
    ensures multiset(es) - multiset(ds) == multiset(es[1..]) - multiset(ds[1..])
    ensures multiset(ds) - multiset(es) == multiset(ds[1..]) - multiset(es[1..])
  {
    assert es == [es[0]] + es[1..] && ds == [ds[0]] + ds[1..];
  }

  /** The two lists from some point on, against what has been told apart before it. */
  ghost predicate Apart<T>(es: seq<T>, ds: seq<T>, left: nat, right: nat, missing: seq<T>, unexpected: seq<T>)
    requires left <= |es| && right <= |ds|
  {
    && multiset(es) - multiset(ds) == multiset(missing) + (multiset(es[left..]) - multiset(ds[right..]))
    && multiset(ds) - multiset(es) == multiset(unexpected) + (multiset(ds[right..]) - multiset(es[left..]))
  }

  ghost predicate Ordered<T>(done: seq<T>, rest: seq<T>, le: (T, T) -> bool) {
    Sorted(done, le) && forall i, j | 0 <= i < |done| && 0 <= j < |rest| :: le(done[i], rest[j])
  }

  lemma OrderedPush<T(!new)>(done: seq<T>, rest: seq<T>, le: (T, T) -> bool)
    requires TotalOrder(le) && Ordered(done, rest, le) && Sorted(rest, le) && rest != []
    ensures Ordered(done + [rest[0]], rest[1..], le) && Ordered(done, rest[1..], le)
  {}

  lemma OrderedAll<T(!new)>(done: seq<T>, rest: seq<T>, le: (T, T) -> bool)
    requires Ordered(done, rest, le) && Sorted(rest, le)
    ensures Sorted(done + rest, le)
  {}

  lemma SortedRest<T>(xs: seq<T>, from: nat, le: (T, T) -> bool)
    requires Sorted(xs, le) && from <= |xs|
    ensures Sorted(xs[from..], le)
  {}

  lemma Starts<T(!new)>(es: seq<T>, ds: seq<T>, le: (T, T) -> bool)
    ensures Apart(es, ds, 0, 0, [], []) && Ordered([], es[0..], le) && Ordered([], ds[0..], le)
  {
    assert es[0..] == es && ds[0..] == ds;
  }

  lemma TakesMissing<T(!new)>(es: seq<T>, ds: seq<T>, le: (T, T) -> bool, left: nat, right: nat, missing: seq<T>, unexpected: seq<T>)
    requires TotalOrder(le) && Sorted(es, le) && Sorted(ds, le) && left < |es| && right < |ds|
    requires Apart(es, ds, left, right, missing, unexpected) && Ordered(missing, es[left..], le)
    requires le(es[left], ds[right]) && es[left] != ds[right]
    ensures Apart(es, ds, left + 1, right, missing + [es[left]], unexpected) && Ordered(missing + [es[left]], es[left + 1..], le)
  {
    SortedRest(es, left, le);
    SortedRest(ds, right, le);
    assert es[left..][1..] == es[left + 1..];
    OrderedPush(missing, es[left..], le);
    HeadIsMissing(es[left..], ds[right..], le);
  }

  lemma TakesUnexpected<T(!new)>(es: seq<T>, ds: seq<T>, le: (T, T) -> bool, left: nat, right: nat, missing: seq<T>, unexpected: seq<T>)
    requires TotalOrder(le) && Sorted(es, le) && Sorted(ds, le) && left < |es| && right < |ds|
    requires Apart(es, ds, left, right, missing, unexpected) && Ordered(unexpected, ds[right..], le)
    requires !le(es[left], ds[right])
    ensures Apart(es, ds, left, right + 1, missing, unexpected + [ds[right]]) && Ordered(unexpected + [ds[right]], ds[right + 1..], le)
  {
    assert le(ds[right], es[left]) && es[left] != ds[right];
    assert Apart(ds, es, right, left, unexpected, missing);
    TakesMissing(ds, es, le, right, left, unexpected, missing);
  }

  lemma TakesMatch<T(!new)>(es: seq<T>, ds: seq<T>, le: (T, T) -> bool, left: nat, right: nat, missing: seq<T>, unexpected: seq<T>)
    requires TotalOrder(le) && Sorted(es, le) && Sorted(ds, le) && left < |es| && right < |ds|
    requires Apart(es, ds, left, right, missing, unexpected) && es[left] == ds[right]
    requires Ordered(missing, es[left..], le) && Ordered(unexpected, ds[right..], le)
    ensures Apart(es, ds, left + 1, right + 1, missing, unexpected)
    ensures Ordered(missing, es[left + 1..], le) && Ordered(unexpected, ds[right + 1..], le)
  {
    SortedRest(es, left, le);
    SortedRest(ds, right, le);
    assert es[left..][1..] == es[left + 1..] && ds[right..][1..] == ds[right + 1..];
    OrderedPush(missing, es[left..], le);
    OrderedPush(unexpected, ds[right..], le);
    HeadsMatch(es[left..], ds[right..]);
  }

  lemma Finishes<T(!new)>(es: seq<T>, ds: seq<T>, le: (T, T) -> bool, left: nat, right: nat, missing: seq<T>, unexpected: seq<T>)
    requires Sorted(es, le) && Sorted(ds, le) && left <= |es| && right <= |ds| && (left == |es| || right == |ds|)
    requires Apart(es, ds, left, right, missing, unexpected)
    requires Ordered(missing, es[left..], le) && Ordered(unexpected, ds[right..], le)
    ensures multiset(missing + es[left..]) == multiset(es) - multiset(ds) && Sorted(missing + es[left..], le)
    ensures multiset(unexpected + ds[right..]) == multiset(ds) - multiset(es) && Sorted(unexpected + ds[right..], le)
  {
    SortedRest(es, left, le);
    SortedRest(ds, right, le);
    OrderedAll(missing, es[left..], le);
    OrderedAll(unexpected, ds[right..], le);
  }

  /** The two-pointer loop on two sorted lists. */
  method Diff<T(!new, ==)>(es: seq<T>, ds: seq<T>, le: (T, T) -> bool)
    returns (matched: nat, missing: seq<T>, unexpected: seq<T>)
    requires TotalOrder(le) && Sorted(es, le) && Sorted(ds, le)
    ensures multiset(missing) == multiset(es) - multiset(ds) && Sorted(missing, le)
    ensures multiset(unexpected) == multiset(ds) - multiset(es) && Sorted(unexpected, le)
    ensures matched + |missing| == |es| && matched + |unexpected| == |ds|
  {
    hide Sorted, Ordered, TotalOrder, Apart;
    matched, missing, unexpected := 0, [], [];
    var left, right := 0, 0;
    Starts(es, ds, le);
    while left < |es| && right < |ds|
      invariant left <= |es| && right <= |ds|
      invariant matched + |missing| == left && matched + |unexpected| == right
      invariant Apart(es, ds, left, right, missing, unexpected)
      invariant Ordered(missing, es[left..], le) && Ordered(unexpected, ds[right..], le)
    {
      if es[left] == ds[right] {
        TakesMatch(es, ds, le, left, right, missing, unexpected);
        matched, left, right := matched + 1, left + 1, right + 1;
      } else if le(es[left], ds[right]) {
        TakesMissing(es, ds, le, left, right, missing, unexpected);
        missing, left := missing + [es[left]], left + 1;
      } else {
        TakesUnexpected(es, ds, le, left, right, missing, unexpected);
        unexpected, right := unexpected + [ds[right]], right + 1;
      }
    }
    Finishes(es, ds, le, left, right, missing, unexpected);
    missing := missing + es[left..];
    unexpected := unexpected + ds[right..];
  }

  lemma IntersectionSize<T>(a: multiset<T>, b: multiset<T>)
    ensures |a * b| + |a - b| == |a|
  {
    assert (a * b) + (a - b) == a;
  }

  /** `compare` */
  method Compare<T(!new, ==)>(expected: seq<T>, detected: seq<T>, le: (T, T) -> bool) returns (c: Comparison<T>)
    requires TotalOrder(le)
    ensures Compares(c, expected, detected)
    ensures Sorted(c.missing, le) && Sorted(c.unexpected, le)
  {
    var es, ds := Sort(expected, le), Sort(detected, le);
    SortIsSorted(expected, le);
    SortIsSorted(detected, le);
    hide Sort, TotalOrder, Sorted;
    assert |multiset(es)| == |es| && |multiset(ds)| == |ds| && |multiset(expected)| == |expected| && |multiset(detected)| == |detected|;
    var matched, missing, unexpected := Diff(es, ds, le);
    IntersectionSize(multiset(es), multiset(ds));
    assert |multiset(missing)| == |missing|;
    c := Comparison(|expected|, |detected|, matched, missing, unexpected);
  }

  // ----------------------------------------------------------------------------- scores

  function SaturatingMul(a: nat, b: nat): nat {
    if a * b <= USIZE_MAX then a * b else USIZE_MAX
  }

  /** `score` */
  function Score(matched: nat, denominator: nat): nat {
    if denominator == 0 then SCALE else SaturatingMul(matched, SCALE) / denominator
  }

  lemma DivisionBound(n: nat, d: nat, q: nat)
    requires d > 0 && n <= q * d
    ensures n / d <= q
    ensures n / d == q <==> n == q * d
  {
    var r := n / d;
    assert n == r * d + n % d;
    MultiplesGrow(r, q, d);
    MultiplesGrow(q, r, d);
  }

  lemma {:induction false} MultiplesGrow(a: nat, b: nat, d: nat)
    requires d > 0
    ensures a > b ==> a * d >= b * d + d
  {
    if a > b {
      assert a * d == (a - 1) * d + d;
      MultiplesGrow(a - 1, b, d);
    }
  }

  /** Scores stay within 0 and 10000, and 10000 means that nothing is lacking; a product beyond the
      machine word is cut and then even a perfect result scores less. */
  lemma ScoreRange(matched: nat, denominator: nat)
    requires matched <= denominator
    ensures Score(matched, denominator) <= SCALE
    ensures Score(matched, denominator) == SCALE <==> matched == denominator && matched * SCALE <= USIZE_MAX
  {
    if denominator > 0 {
      var n := SaturatingMul(matched, SCALE);
      assert n <= matched * SCALE <= SCALE * denominator;
      DivisionBound(n, denominator, SCALE);
      assert n == SCALE * denominator <==> matched == denominator && matched * SCALE <= USIZE_MAX by {
        if n == SCALE * denominator {
          assert matched * SCALE == denominator * SCALE;
        }
      }
    }
  }

  // ------------------------------------------------------------------------- aggregation

  function SumExpected<T>(cs: seq<Comparison<T>>): nat {
    if cs == [] then 0 else SumExpected(cs[..|cs| - 1]) + cs[|cs| - 1].expected
  }

  function SumDetected<T>(cs: seq<Comparison<T>>): nat {
    if cs == [] then 0 else SumDetected(cs[..|cs| - 1]) + cs[|cs| - 1].detected
  }

  function SumMatched<T>(cs: seq<Comparison<T>>): nat {
    if cs == [] then 0 else SumMatched(cs[..|cs| - 1]) + cs[|cs| - 1].matched
  }

  /** `aggregate_metric` */
  function Aggregate<T>(cs: seq<Comparison<T>>): Metric {
    Metric(SumExpected(cs), SumDetected(cs), SumMatched(cs),
           Score(SumMatched(cs), SumDetected(cs)), Score(SumMatched(cs), SumExpected(cs)))
  }

  /** A comparison whose counts add up, as `compare` returns it. */
  predicate Counted<T>(c: Comparison<T>) {
    c.matched + |c.missing| == c.expected && c.matched + |c.unexpected| == c.detected
  }

  lemma {:induction false} SumsAddUp<T>(cs: seq<Comparison<T>>)
    requires forall c | c in cs :: Counted(c)
    ensures SumMatched(cs) <= SumExpected(cs) && SumMatched(cs) <= SumDetected(cs)
    ensures SumMatched(cs) == SumDetected(cs) <==> forall c | c in cs :: c.unexpected == []
    ensures SumMatched(cs) == SumExpected(cs) <==> forall c | c in cs :: c.missing == []
  {
    if cs != [] {
      var before, last := cs[..|cs| - 1], cs[|cs| - 1];
      SumsAddUp(before);
      assert cs == before + [last];
      assert Counted(last);
    }
  }

  /** Both scores are within range; precision is full exactly when nothing unexpected was detected
      in any case and recall exactly when nothing was missed, unless the product is cut. */
  lemma MetricMeaning<T>(cs: seq<Comparison<T>>)
    requires forall c | c in cs :: Counted(c)
    ensures Aggregate(cs).precision <= SCALE && Aggregate(cs).recall <= SCALE
    ensures Aggregate(cs).precision == SCALE <==>
              (forall c | c in cs :: c.unexpected == []) && SumMatched(cs) * SCALE <= USIZE_MAX
    ensures Aggregate(cs).recall == SCALE <==>
              (forall c | c in cs :: c.missing == []) && SumMatched(cs) * SCALE <= USIZE_MAX
  {
    hide Score, Counted, SumMatched, SumExpected, SumDetected;
    SumsAddUp(cs);
    ScoreRange(SumMatched(cs), SumDetected(cs));
    ScoreRange(SumMatched(cs), SumExpected(cs));
  }

  // ---------------------------------------------------------------------- cases and runs

  const OBSERVATIONS := "observations"
  const CANDIDATES := "framework_candidates"

  /** One reviewed source file: what is expected of it and what detection makes of it. */
  datatype Case<O, F> = Case(
    reviewed: seq<string>, expectedObservations: seq<O>, expectedCandidates: seq<F>, detected: Result<(seq<O>, seq<F>), string>)

  datatype CaseReport<O, F> = CaseReport(
    passed: bool, parseError: Option<string>, reviewed: seq<string>, observations: Comparison<O>, candidates: Comparison<F>)

  datatype Thresholds = Thresholds(observationPrecision: nat, observationRecall: nat, candidatePrecision: nat, candidateRecall: nat)

  /** What counts as detected: nothing when the source does not parse. */
  function DetectedObservations<O, F>(c: Case<O, F>): seq<O> {
    if c.detected.Ok? then c.detected.value.0 else []
  }

  function DetectedCandidates<O, F>(c: Case<O, F>): seq<F> {
    if c.detected.Ok? then c.detected.value.1 else []
  }

  /** A case in order: it parses, and each reviewed output is, as a multiset, what was expected. */
  ghost predicate InOrder<O, F>(c: Case<O, F>) {
    && c.detected.Ok?
    && (OBSERVATIONS in c.reviewed ==> multiset(c.expectedObservations) == multiset(DetectedObservations(c)))
    && (CANDIDATES in c.reviewed ==> multiset(c.expectedCandidates) == multiset(DetectedCandidates(c)))
  }

  ghost predicate Reports<O, F>(r: CaseReport<O, F>, c: Case<O, F>) {
    && r.reviewed == c.reviewed
    && r.parseError == (if c.detected.Err? then Some(c.detected.error) else None)
    && (if OBSERVATIONS in c.reviewed then Compares(r.observations, c.expectedObservations, DetectedObservations(c))
        else r.observations == Comparison(0, 0, 0, [], []))
    && (if CANDIDATES in c.reviewed then Compares(r.candidates, c.expectedCandidates, DetectedCandidates(c))
        else r.candidates == Comparison(0, 0, 0, [], []))
  }

  lemma DifferencesEmpty<T>(c: Comparison<T>, expected: seq<T>, detected: seq<T>)
    requires Compares(c, expected, detected)
    ensures c.missing == [] && c.unexpected == [] <==> multiset(expected) == multiset(detected)
  {
    var e, d := multiset(expected), multiset(detected);
    assert |multiset(c.missing)| == |c.missing| && |multiset(c.unexpected)| == |c.unexpected|;
    assert e == (e * d) + (e - d) && d == (d * e) + (d - e) && e * d == d * e;
    if e == d {
      assert e - d == multiset{};
    }
  }

  /** `run_case` for a readable source of the declared language. */
  method RunCase<O(!new, ==), F(!new, ==)>(c: Case<O, F>, leO: (O, O) -> bool, leF: (F, F) -> bool) returns (r: CaseReport<O, F>)
    requires TotalOrder(leO) && TotalOrder(leF)
    ensures Reports(r, c)
    ensures r.passed <==> InOrder(c)
  {
    hide TotalOrder, Compares, Sorted;
    var observations := Comparison(0, 0, 0, [], []);
    var candidates := Comparison(0, 0, 0, [], []);
    if OBSERVATIONS in c.reviewed {
      observations := Compare(c.expectedObservations, DetectedObservations(c), leO);
      DifferencesEmpty(observations, c.expectedObservations, DetectedObservations(c));
    }
    if CANDIDATES in c.reviewed {
      candidates := Compare(c.expectedCandidates, DetectedCandidates(c), leF);
      DifferencesEmpty(candidates, c.expectedCandidates, DetectedCandidates(c));
    }
    var parseError := if c.detected.Err? then Some(c.detected.error) else None;
    var passed := parseError.None? && observations.missing == [] && observations.unexpected == []
                  && candidates.missing == [] && candidates.unexpected == [];
    r := CaseReport(passed, parseError, c.reviewed, observations, candidates);
  }

  /** The comparisons that count for a metric: those of the cases that review the output. */
  function ReviewedObservations<O, F>(rs: seq<CaseReport<O, F>>): seq<Comparison<O>> {
    if rs == [] then []
    else ReviewedObservations(rs[..|rs| - 1]) + if OBSERVATIONS in rs[|rs| - 1].reviewed then [rs[|rs| - 1].observations] else []
  }

  function ReviewedCandidates<O, F>(rs: seq<CaseReport<O, F>>): seq<Comparison<F>> {
    if rs == [] then []
    else ReviewedCandidates(rs[..|rs| - 1]) + if CANDIDATES in rs[|rs| - 1].reviewed then [rs[|rs| - 1].candidates] else []
  }

  datatype BenchmarkReport<O, F> = BenchmarkReport(
    passed: bool, passedCases: nat, parseFailures: nat, observations: Metric, candidates: Metric, cases: seq<CaseReport<O, F>>)

  predicate Meets(observations: Metric, candidates: Metric, minimum: Thresholds) {
    && observations.precision >= minimum.observationPrecision && observations.recall >= minimum.observationRecall
    && candidates.precision >= minimum.candidatePrecision && candidates.recall >= minimum.candidateRecall
  }

  /** The reports so far, one per case. */
  ghost predicate AllReported<O, F>(rs: seq<CaseReport<O, F>>, cases: seq<Case<O, F>>) {
    && |rs| == |cases|
    && forall i | 0 <= i < |rs| :: Reports(rs[i], cases[i]) && (rs[i].passed <==> InOrder(cases[i]))
  }

  function CountPassed<O, F>(rs: seq<CaseReport<O, F>>): nat {
    if rs == [] then 0 else CountPassed(rs[..|rs| - 1]) + if rs[|rs| - 1].passed then 1 else 0
  }

  function CountParseErrors<O, F>(rs: seq<CaseReport<O, F>>): nat {
    if rs == [] then 0 else CountParseErrors(rs[..|rs| - 1]) + if rs[|rs| - 1].parseError.Some? then 1 else 0
  }

  /** `run_detector_benchmark` over the cases of a valid corpus. */
  method RunBenchmark<O(!new, ==), F(!new, ==)>(cases: seq<Case<O, F>>, minimum: Thresholds, leO: (O, O) -> bool, leF: (F, F) -> bool)
    returns (r: BenchmarkReport<O, F>)
    requires TotalOrder(leO) && TotalOrder(leF)
    ensures AllReported(r.cases, cases)
    ensures r.observations == Aggregate(ReviewedObservations(r.cases)) && r.candidates == Aggregate(ReviewedCandidates(r.cases))
    ensures r.passedCases == CountPassed(r.cases) && r.parseFailures == CountParseErrors(r.cases)
    ensures r.passed <==> r.parseFailures == 0 && Meets(r.observations, r.candidates, minimum)
  {
    hide TotalOrder, Reports, InOrder, Aggregate;
    var rs: seq<CaseReport<O, F>> := [];
    var passed, errors := 0, 0;
    for i := 0 to |cases|
      invariant AllReported(rs, cases[..i])
      invariant passed == CountPassed(rs) && errors == CountParseErrors(rs)
    {
      var report := RunCase(cases[i], leO, leF);
      assert (rs + [report])[..|rs|] == rs;
      rs := rs + [report];
      passed := passed + if report.passed then 1 else 0;
      errors := errors + if report.parseError.Some? then 1 else 0;
    }
    assert cases[..|cases|] == cases;
    var observations, candidates := Aggregate(ReviewedObservations(rs)), Aggregate(ReviewedCandidates(rs));
    r := BenchmarkReport(errors == 0 && Meets(observations, candidates, minimum), passed, errors, observations, candidates, rs);
  }

  // --------------------------------------------------------------- the decision as a whole

  lemma {:induction false} NoParseErrors<O, F>(rs: seq<CaseReport<O, F>>)
    ensures CountParseErrors(rs) == 0 <==> forall r | r in rs :: r.parseError.None?
  {
    if rs != [] {
      NoParseErrors(rs[..|rs| - 1]);
      assert rs == rs[..|rs| - 1] + [rs[|rs| - 1]];
    }
  }

  lemma {:induction false} ReportOfObservations<O, F>(rs: seq<CaseReport<O, F>>, c: Comparison<O>) returns (r: CaseReport<O, F>)
    requires c in ReviewedObservations(rs)
    ensures r in rs && OBSERVATIONS in r.reviewed && r.observations == c
  {
    var before, last := rs[..|rs| - 1], rs[|rs| - 1];
    if c in ReviewedObservations(before) {
      r := ReportOfObservations(before, c);
    } else {
      r := last;
    }
  }

  lemma {:induction false} ReportOfCandidates<O, F>(rs: seq<CaseReport<O, F>>, c: Comparison<F>) returns (r: CaseReport<O, F>)
    requires c in ReviewedCandidates(rs)
    ensures r in rs && CANDIDATES in r.reviewed && r.candidates == c
  {
    var before, last := rs[..|rs| - 1], rs[|rs| - 1];
    if c in ReviewedCandidates(before) {
      r := ReportOfCandidates(before, c);
    } else {
      r := last;
    }
  }

  lemma {:induction false} ReportIsReviewed<O, F>(rs: seq<CaseReport<O, F>>, r: CaseReport<O, F>)
    requires r in rs
    ensures OBSERVATIONS in r.reviewed ==> r.observations in ReviewedObservations(rs)
    ensures CANDIDATES in r.reviewed ==> r.candidates in ReviewedCandidates(rs)
  {
    var before, last := rs[..|rs| - 1], rs[|rs| - 1];
    if r in before {
      ReportIsReviewed(before, r);
    } else {
      assert rs == before + [last];
    }
  }

  predicate Same<T>(c: Comparison<T>) {
    c.missing == [] && c.unexpected == []
  }

  lemma CaseMeaning<O, F>(r: CaseReport<O, F>, c: Case<O, F>)
    requires Reports(r, c)
    ensures InOrder(c) <==> r.parseError.None? && (OBSERVATIONS in r.reviewed ==> Same(r.observations))
                            && (CANDIDATES in r.reviewed ==> Same(r.candidates))
    ensures OBSERVATIONS in r.reviewed ==> Counted(r.observations)
    ensures CANDIDATES in r.reviewed ==> Counted(r.candidates)
  {
    if OBSERVATIONS in c.reviewed {
      DifferencesEmpty(r.observations, c.expectedObservations, DetectedObservations(c));
    }
    if CANDIDATES in c.reviewed {
      DifferencesEmpty(r.candidates, c.expectedCandidates, DetectedCandidates(c));
    }
  }

  /** What full scores ask of one report. */
  predicate Clean<O, F>(r: CaseReport<O, F>) {
    r.parseError.None? && (OBSERVATIONS in r.reviewed ==> Same(r.observations)) && (CANDIDATES in r.reviewed ==> Same(r.candidates))
  }

  /** With all minimum scores at 10000 the benchmark passes exactly when every case is in order. */
  lemma FullScoresMeanAllInOrder<O, F>(cases: seq<Case<O, F>>, rs: seq<CaseReport<O, F>>)
    requires AllReported(rs, cases)
    requires SumMatched(ReviewedObservations(rs)) * SCALE <= USIZE_MAX && SumMatched(ReviewedCandidates(rs)) * SCALE <= USIZE_MAX
    ensures CountParseErrors(rs) == 0 && Meets(Aggregate(ReviewedObservations(rs)), Aggregate(ReviewedCandidates(rs)),
                                               Thresholds(SCALE, SCALE, SCALE, SCALE))
            <==> forall c | c in cases :: InOrder(c)
  {
    hide InOrder, Reports, SumMatched, Aggregate, Counted, ReviewedObservations, ReviewedCandidates, CountParseErrors;
    forall i | 0 <= i < |rs|
      ensures InOrder(cases[i]) <==> Clean(rs[i])
      ensures OBSERVATIONS in rs[i].reviewed ==> Counted(rs[i].observations)
      ensures CANDIDATES in rs[i].reviewed ==> Counted(rs[i].candidates)
    {
      CaseMeaning(rs[i], cases[i]);
    }
    assert (forall c | c in cases :: InOrder(c)) <==> forall i | 0 <= i < |cases| :: InOrder(cases[i]);
    NoParseErrors(rs);
    forall c | c in ReviewedObservations(rs) ensures Counted(c) {
      var r := ReportOfObservations(rs, c);
      var i :| 0 <= i < |rs| && rs[i] == r;
    }
    forall c | c in ReviewedCandidates(rs) ensures Counted(c) {
      var r := ReportOfCandidates(rs, c);
      var i :| 0 <= i < |rs| && rs[i] == r;
    }
    MetricMeaning(ReviewedObservations(rs));
    MetricMeaning(ReviewedCandidates(rs));
    AllCleanIff(rs);
  }

  lemma AllCleanIff<O, F>(rs: seq<CaseReport<O, F>>)
    ensures (forall r | r in rs :: Clean(r)) <==>
              && (forall r | r in rs :: r.parseError.None?)
              && (forall c | c in ReviewedObservations(rs) :: Same(c))
              && (forall c | c in ReviewedCandidates(rs) :: Same(c))
    ensures (forall r | r in rs :: Clean(r)) <==> forall i | 0 <= i < |rs| :: Clean(rs[i])
  {
    hide Same, ReviewedObservations, ReviewedCandidates;
    var os, cs := ReviewedObservations(rs), ReviewedCandidates(rs);
    if (forall r | r in rs :: r.parseError.None?) && (forall c | c in os :: Same(c)) && (forall c | c in cs :: Same(c)) {
      forall r | r in rs ensures Clean(r) {
        ReportIsReviewed(rs, r);
      }
    }
    if forall r | r in rs :: Clean(r) {
      forall c | c in os ensures Same(c) {
        var r := ReportOfObservations(rs, c);
      }
      forall c | c in cs ensures Same(c) {
        var r := ReportOfCandidates(rs, c);
      }
    }
  }

  /** Minimum scores within range never fail a run whose cases are all in order; and a run with a
      parse error never passes. */
  lemma InOrderAlwaysPasses<O, F>(cases: seq<Case<O, F>>, rs: seq<CaseReport<O, F>>, minimum: Thresholds)
    requires AllReported(rs, cases) && forall c | c in cases :: InOrder(c)
    requires SumMatched(ReviewedObservations(rs)) * SCALE <= USIZE_MAX && SumMatched(ReviewedCandidates(rs)) * SCALE <= USIZE_MAX
    requires minimum.observationPrecision <= SCALE && minimum.observationRecall <= SCALE
             && minimum.candidatePrecision <= SCALE && minimum.candidateRecall <= SCALE
    ensures CountParseErrors(rs) == 0 && Meets(Aggregate(ReviewedObservations(rs)), Aggregate(ReviewedCandidates(rs)), minimum)
  {
    FullScoresMeanAllInOrder(cases, rs);
    hide Aggregate, SumMatched, AllReported, InOrder;
  }
}
