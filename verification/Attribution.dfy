/** The five signals of an attribution, their weighted confidence, and its classification.

    Signals are exact reals; scores are whole ten-thousandths and confidences whole hundredths of a
    percent, each rounded half to even. */
module Attribution {
  import opened Options
  import opened Rounding

  /** `latency` and `errorType` are what the observation recorded, if anything. */
  datatype Observation = Observation(id: nat, latency: Option<real>, errorType: Option<string>, hasStatus: bool)

  /** A list of observations may hold gaps. */
  type Observations = seq<Option<Observation>>

  function Min(a: real, b: real): real {
    if a < b then a else b
  }

  function Max(a: real, b: real): real {
    if a < b then b else a
  }

  // ---------------------------------------------------------------- latency instability

  function Latencies(obs: Observations): seq<real> {
    if obs == [] then []
    else if obs[0].None? || obs[0].value.latency.None? then Latencies(obs[1..])
    else [Max(0.0, obs[0].value.latency.value)] + Latencies(obs[1..])
  }

  function Sum(s: seq<real>): real {
    if s == [] then 0.0 else s[0] + Sum(s[1..])
  }

  function Square(x: real): real {
    x * x
  }

  function SquaredDeviations(s: seq<real>, m: real): real {
    if s == [] then 0.0 else Square(s[0] - m) + SquaredDeviations(s[1..], m)
  }

  /** `m` is the mean of the `n` values, and `root` the square root of their variance. */
  predicate IsDeviation(s: seq<real>, n: real, m: real, root: real) {
    n == |s| as real && n * m == Sum(s) && root >= 0.0 && n * Square(root) == SquaredDeviations(s, m)
  }

  function Coefficient(root: real, mean: real): real {
    if mean + 1.0 == 0.0 then 0.0 else root / (mean + 1.0)
  }

  function LatencySignal(latencies: seq<real>, mean: real, root: real): real {
    if |latencies| < 2 then 0.0 else Min(1.0, Max(0.0, Coefficient(root, mean)))
  }

  predicate AllNonNegative(s: seq<real>) {
    forall i :: 0 <= i < |s| ==> s[i] >= 0.0
  }

  lemma {:induction false} LatenciesAreNonNegative(obs: Observations)
    ensures AllNonNegative(Latencies(obs))
  {
    if obs != [] {
      LatenciesAreNonNegative(obs[1..]);
    }
  }

  /** The sum of `a * x + c` over the values. */
  function Line(s: seq<real>, a: real, c: real): real {
    if s == [] then 0.0 else a * s[0] + c + Line(s[1..], a, c)
  }

  predicate UnderLine(s: seq<real>, m: real, a: real, c: real) {
    s == [] || (Square(s[0] - m) <= a * s[0] + c && UnderLine(s[1..], m, a, c))
  }

  lemma {:induction false} DeviationsUnderLine(s: seq<real>, m: real, a: real, c: real)
    requires UnderLine(s, m, a, c)
    ensures SquaredDeviations(s, m) <= Line(s, a, c)
  {
    if s != [] {
      DeviationsUnderLine(s[1..], m, a, c);
    }
  }

  lemma {:induction false} LineIsLinear(s: seq<real>, a: real, c: real)
    ensures Line(s, a, c) == a * Sum(s) + |s| as real * c
  {
    if s != [] {
      LineIsLinear(s[1..], a, c);
    }
  }

  lemma {:induction false} SumIsNonNegative(s: seq<real>)
    requires AllNonNegative(s)
    ensures Sum(s) >= 0.0
  {
    if s != [] {
      SumIsNonNegative(s[1..]);
    }
  }

  lemma ValueUnderLine(x: real, sum: real, n: real, m: real, a: real, c: real)
    requires 0.0 <= x <= sum && sum == n * m && a == sum - 2.0 * m && c == Square(m)
    ensures Square(x - m) <= a * x + c
  {
    assert Square(x - m) == x * x - 2.0 * m * x + Square(m);
    assert (sum - x) * x >= 0.0;
  }

  /** A value that is not negative and at most the sum deviates by no more than this line allows. */
  lemma {:induction false} AllUnderLine(s: seq<real>, sum: real, n: real, m: real, a: real, c: real)
    requires AllNonNegative(s) && Sum(s) <= sum && sum == n * m && a == sum - 2.0 * m && c == Square(m)
    ensures UnderLine(s, m, a, c)
  {
    if s != [] {
      SumIsNonNegative(s[1..]);
      ValueUnderLine(s[0], sum, n, m, a, c);
      AllUnderLine(s[1..], sum, n, m, a, c);
    }
  }

  lemma LineOfSum(n: real, sum: real, m: real, a: real, c: real, line: real)
    requires sum == n * m && a == sum - 2.0 * m && c == Square(m) && line == a * sum + n * c
    ensures line == n * ((n - 1.0) * Square(m))
  {
    assert a * sum == sum * sum - 2.0 * m * sum;
    assert sum * sum == n * n * Square(m) && m * sum == n * Square(m);
  }

  lemma LineValue(s: seq<real>, n: real, sum: real, m: real, a: real, c: real, line: real)
    requires n == |s| as real && sum == Sum(s) && sum == n * m && a == sum - 2.0 * m && c == Square(m)
    requires line == Line(s, a, c)
    ensures line == n * ((n - 1.0) * Square(m))
  {
    assert line == a * sum + n * c by {
      LineIsLinear(s, a, c);
    }
    LineOfSum(n, sum, m, a, c, line);
  }

  lemma DeviationsWithinLine(s: seq<real>, n: real, sum: real, m: real, a: real, c: real, line: real)
    requires AllNonNegative(s) && sum == Sum(s) && sum == n * m && a == sum - 2.0 * m && c == Square(m)
    requires line == Line(s, a, c)
    ensures SquaredDeviations(s, m) <= line
  {
    AllUnderLine(s, sum, n, m, a, c);
    DeviationsUnderLine(s, m, a, c);
  }

  lemma DeviationsBound(s: seq<real>, n: real, sum: real, m: real, a: real, c: real, line: real)
    requires AllNonNegative(s) && n == |s| as real && sum == Sum(s) && sum == n * m
    requires a == sum - 2.0 * m && c == Square(m) && line == Line(s, a, c)
    ensures SquaredDeviations(s, m) <= n * ((n - 1.0) * Square(m))
  {
    DeviationsWithinLine(s, n, sum, m, a, c, line);
    LineValue(s, n, sum, m, a, c, line);
  }

  lemma Cancel(n: real, a: real, b: real)
    requires n > 0.0 && n * a <= n * b
    ensures a <= b
  {
  }

  lemma FactorIsNonNegative(n: real, m: real)
    requires n > 0.0 && n * m >= 0.0
    ensures m >= 0.0
  {
  }

  lemma DivideSquares(root: real, m: real, n: real)
    requires m >= 0.0 && Square(root) <= (n - 1.0) * Square(m)
    ensures Square(Coefficient(root, m)) <= (n - 1.0) * Square(Coefficient(m, m))
  {
    var d := m + 1.0;
    var c, q := root / d, m / d;
    assert root == c * d && m == q * d;
    assert Square(c * d) == Square(c) * Square(d);
    assert Square(q * d) == Square(q) * Square(d);
    assert Square(d) > 0.0;
    assert Square(c) * Square(d) <= ((n - 1.0) * Square(q)) * Square(d);
  }

  lemma MeanIsNonNegative(s: seq<real>, n: real, m: real)
    requires s != [] && AllNonNegative(s) && n == |s| as real && n * m == Sum(s)
    ensures m >= 0.0
  {
    SumIsNonNegative(s);
    FactorIsNonNegative(n, m);
  }

  lemma RootBound(n: real, m: real, root: real, deviations: real)
    requires n > 0.0 && n * Square(root) == deviations && deviations <= n * ((n - 1.0) * Square(m))
    ensures Square(root) <= (n - 1.0) * Square(m)
  {
    Cancel(n, Square(root), (n - 1.0) * Square(m));
  }

  lemma VarianceBound(s: seq<real>, n: real, m: real, root: real)
    requires s != [] && AllNonNegative(s) && IsDeviation(s, n, m, root)
    ensures m >= 0.0 && Square(root) <= (n - 1.0) * Square(m)
  {
    MeanIsNonNegative(s, n, m);
    var sum, a, c := Sum(s), Sum(s) - 2.0 * m, Square(m);
    DeviationsBound(s, n, sum, m, a, c, Line(s, a, c));
    RootBound(n, m, root, SquaredDeviations(s, m));
  }

  /** Latencies are never negative, so before clamping the squared coefficient of `n` latencies is at
      most n - 1 times (mean / (mean + 1)) squared. */
  lemma CoefficientBound(obs: Observations, n: real, m: real, root: real)
    requires Latencies(obs) != [] && IsDeviation(Latencies(obs), n, m, root)
    ensures m >= 0.0
    ensures Square(Coefficient(root, m)) <= (n - 1.0) * Square(Coefficient(m, m))
  {
    LatenciesAreNonNegative(obs);
    VarianceBound(Latencies(obs), n, m, root);
    DivideSquares(root, m, n);
  }

  /** With two latencies or more the signal is the deviation over the mean plus one, 1 at most; with
      fewer it is 0. */
  lemma LatencySignalIs(s: seq<real>, n: real, m: real, root: real, signal: real)
    requires AllNonNegative(s) && s != [] && IsDeviation(s, n, m, root) && signal == LatencySignal(s, m, root)
    ensures |s| < 2 ==> signal == 0.0
    ensures |s| >= 2 && root >= m + 1.0 ==> signal == 1.0
    ensures |s| >= 2 && root < m + 1.0 ==> signal * (m + 1.0) == root
  {
    MeanIsNonNegative(s, n, m);
    ClampedQuotient(root, m + 1.0, root / (m + 1.0));
  }

  lemma ClampedQuotient(root: real, d: real, q: real)
    requires root >= 0.0 && d > 0.0 && q == root / d
    ensures q >= 0.0 && q * d == root && (q >= 1.0 <==> root >= d)
  {
    assert (q - 1.0) * d == root - d;
    SignOfProduct(q, d);
    SignOfProduct(q - 1.0, d);
  }

  /** The mean and the deviation are determined by the latencies. */
  lemma DeviationIsUnique(s: seq<real>, n: real, m: real, root: real, m': real, root': real)
    requires s != [] && IsDeviation(s, n, m, root) && IsDeviation(s, n, m', root')
    ensures m == m' && root == root'
  {
    EqualFactors(n, m, m');
    EqualFactors(n, Square(root), Square(root'));
    RootIsUnique(root, root');
  }

  lemma EqualFactors(n: real, a: real, b: real)
    requires n > 0.0 && n * a == n * b
    ensures a == b
  {
  }

  lemma RootIsUnique(a: real, b: real)
    requires a >= 0.0 && b >= 0.0 && Square(a) == Square(b)
    ensures a == b
  {
    assert Square(a) - Square(b) == (a - b) * (a + b);
    if a + b == 0.0 {
      assert a == 0.0 && b == 0.0;
    }
  }

  // ---------------------------------------------------------------- error pattern

  function ErrorTypes(obs: Observations): seq<string> {
    if obs == [] then []
    else if obs[0].None? || obs[0].value.errorType.None? || obs[0].value.errorType.value == "" then ErrorTypes(obs[1..])
    else [obs[0].value.errorType.value] + ErrorTypes(obs[1..])
  }

  /** The largest number of occurrences of one element. */
  function MaxCount(counts: multiset<string>, errors: seq<string>): nat {
    if errors == [] then 0
    else
      var rest := MaxCount(counts, errors[1..]);
      if counts[errors[0]] > rest then counts[errors[0]] else rest
  }

  function ErrorSignal(errors: seq<string>): real {
    if errors == [] then 0.0 else MaxCount(multiset(errors), errors) as real / |errors| as real
  }

  function Types(errors: seq<string>): set<string> {
    set e | e in errors
  }

  lemma {:induction false} MaxCountIsMax(counts: multiset<string>, errors: seq<string>)
    ensures forall e :: e in errors ==> counts[e] <= MaxCount(counts, errors)
    ensures errors != [] ==> exists e :: e in errors && counts[e] == MaxCount(counts, errors)
  {
    if errors != [] {
      MaxCountIsMax(counts, errors[1..]);
      assert errors[0] in errors;
      forall e | e in errors ensures counts[e] <= MaxCount(counts, errors) {
        assert e == errors[0] || e in errors[1..];
      }
    }
  }

  /** A multiset with `types` as its elements, none more than `k` times, has at most `k` per type. */
  lemma {:induction false} Pigeonhole(counts: multiset<string>, types: set<string>, k: nat)
    requires forall e :: e in counts <==> e in types
    requires forall e :: e in types ==> counts[e] <= k
    ensures |counts| <= |types| * k
    decreases |types|
  {
    if types == {} {
      assert counts == multiset{};
    } else {
      var e :| e in types;
      Pigeonhole(counts[e := 0], types - {e}, k);
      assert |counts| == |counts[e := 0]| + counts[e];
      assert |types| * k == |types - {e}| * k + k;
    }
  }

  lemma QuotientAtLeast(q: real, r: real, total: real, n: real, k: real)
    requires n > 0.0 && k > 0.0 && n <= k * total && q * n == total && r * k == 1.0
    ensures q >= r
  {
    assert k * (n * (q - r)) == k * (q * n) - n * (r * k);
    FactorIsNonNegative(k, n * (q - r));
    FactorIsNonNegative(n, q - r);
  }

  lemma OneTypeIffMaxIsAll(errors: seq<string>, max: nat)
    requires errors != [] && max == MaxCount(multiset(errors), errors)
    ensures max <= |errors|
    ensures max == |errors| <==> |Types(errors)| == 1
  {
    var counts := multiset(errors);
    MaxCountIsMax(counts, errors);
    var e :| e in errors && counts[e] == max;
    var others := counts[e := 0];
    assert |counts| == |others| + max;
    assert Types(errors) == {e} + (Types(errors) - {e});
    assert errors[0] in counts;
    if max == |errors| {
      assert others == multiset{};
      forall x | x in Types(errors) ensures x == e {
        assert counts[x] > 0 && others[x] == 0;
      }
      assert Types(errors) == {e};
    } else {
      assert |others| > 0;
      var x :| x in others;
      assert x in Types(errors) && x != e;
      assert {e, x} <= Types(errors);
      CardinalityOfTwo(Types(errors), e, x);
    }
  }

  lemma CardinalityOfTwo(types: set<string>, a: string, b: string)
    requires a in types && b in types && a != b
    ensures |types| >= 2
  {
    assert types == {a} + ({b} + (types - {a} - {b}));
  }

  lemma RealProduct(n: nat, types: nat, max: nat)
    requires n <= types * max
    ensures n as real <= types as real * max as real
  {
    assert types as real * max as real == (types * max) as real;
  }

  lemma RatioAtMostOne(q: real, n: real, max: real)
    requires max <= n && n > 0.0 && q * n == max
    ensures q <= 1.0 && (q == 1.0 <==> max == n)
  {
    Cancel(n, q, 1.0);
    if max == n {
      EqualFactors(n, q, 1.0);
    }
  }

  lemma TypesTimesMax(errors: seq<string>)
    requires errors != []
    ensures |Types(errors)| > 0
    ensures |errors| <= |Types(errors)| * MaxCount(multiset(errors), errors)
  {
    MaxCountIsMax(multiset(errors), errors);
    assert errors[0] in Types(errors);
    Pigeonhole(multiset(errors), Types(errors), MaxCount(multiset(errors), errors));
  }

  lemma SignalBounds(n: nat, types: nat, max: nat, signal: real)
    requires n > 0 && types > 0 && max <= n && signal == max as real / n as real
    requires n as real <= types as real * max as real
    ensures 1.0 / types as real <= signal <= 1.0
    ensures signal == 1.0 <==> max == n
  {
    QuotientAtLeast(signal, 1.0 / types as real, max as real, n as real, types as real);
    RatioAtMostOne(signal, n as real, max as real);
  }

  /** The error signal is at least one over the number of error types, and 1 just when there is one. */
  lemma ErrorSignalBounds(errors: seq<string>)
    requires errors != []
    ensures |Types(errors)| > 0
    ensures 1.0 / |Types(errors)| as real <= ErrorSignal(errors) <= 1.0
    ensures ErrorSignal(errors) == 1.0 <==> |Types(errors)| == 1
  {
    var n, types, max := |errors|, |Types(errors)|, MaxCount(multiset(errors), errors);
    OneTypeIffMaxIsAll(errors, max);
    assert types > 0 && n as real <= types as real * max as real by {
      TypesTimesMax(errors);
      RealProduct(n, types, max);
    }
    SignalBounds(n, types, max, ErrorSignal(errors));
  }

  /** The error signal is the share of the commonest error type. */
  lemma ErrorSignalIsLargestShare(errors: seq<string>, n: real)
    requires errors != [] && n == |errors| as real
    ensures exists e ::
              && e in errors && ErrorSignal(errors) * n == multiset(errors)[e] as real
              && forall other :: other in errors ==> multiset(errors)[other] <= multiset(errors)[e]
  {
    var max := MaxCount(multiset(errors), errors);
    QuotientTimes(ErrorSignal(errors), max as real, n);
    MaxCountIsMax(multiset(errors), errors);
    var e :| e in errors && multiset(errors)[e] == max;
  }

  lemma QuotientTimes(q: real, part: real, total: real)
    requires total > 0.0 && q == part / total
    ensures q * total == part
  {
  }

  // ---------------------------------------------------------------- scores and confidence

  datatype Signals = Signals(temporal: real, endpoint: real, latency: real, error: real, infrastructure: real)

  datatype Scores = Scores(temporal: int, endpoint: int, latency: int, error: int, infrastructure: int)

  function TemporalSignal(othersOpen: nat): real {
    if othersOpen > 0 then 1.0 else 0.0
  }

  function MaxOf(s: seq<real>): real
    requires s != []
  {
    if |s| == 1 then s[0] else Max(s[0], MaxOf(s[1..]))
  }

  function EndpointSignal(correlations: seq<real>): real {
    if correlations == [] then 0.0 else Min(1.0, MaxOf(correlations))
  }

  function ComputeSignals(
    othersOpen: nat, correlations: seq<real>, obs: Observations, mean: real, root: real, infrastructureOk: bool)
    : Signals
  {
    Signals(
      TemporalSignal(othersOpen),
      EndpointSignal(correlations),
      LatencySignal(Latencies(obs), mean, root),
      ErrorSignal(ErrorTypes(obs)),
      if infrastructureOk then 1.0 else 0.0)
  }

  function Score(x: real): int {
    RoundHalfEven(10000.0 * x)
  }

  function ComputeScores(s: Signals): Scores {
    Scores(Score(s.temporal), Score(s.endpoint), Score(s.latency), Score(s.error), Score(s.infrastructure))
  }

  /** In hundredths of a percent; the weights are 20, 25, 25, 15 and 15 percent. */
  function Confidence(s: Scores): int {
    var weighted := 20 * s.temporal + 25 * s.endpoint + 25 * s.latency + 15 * s.error + 15 * s.infrastructure;
    RoundHalfEven(weighted as real / 100.0)
  }

  datatype Classification = VendorFailure | MultiCause | InfrastructureIssue | Unknown

  function Classify(confidence: int, infrastructureOk: bool): Classification {
    if confidence >= 7500 then VendorFailure
    else if confidence >= 5000 then MultiCause
    else if !infrastructureOk then InfrastructureIssue
    else Unknown
  }

  function Rank(c: Classification): int {
    if c.VendorFailure? then 2 else if c.MultiCause? then 1 else 0
  }

  predicate UnitSignals(s: Signals) {
    && 0.0 <= s.temporal <= 1.0 && 0.0 <= s.endpoint <= 1.0 && 0.0 <= s.latency <= 1.0
    && 0.0 <= s.error <= 1.0 && 0.0 <= s.infrastructure <= 1.0
  }

  lemma {:induction false} MaxOfBounds(s: seq<real>)
    requires s != []
    ensures MaxOf(s) >= 0.0 <==> exists i :: 0 <= i < |s| && s[i] >= 0.0
  {
    if |s| > 1 {
      MaxOfBounds(s[1..]);
      assert (exists i :: 0 <= i < |s[1..]| && s[1..][i] >= 0.0) ==> exists i :: 0 <= i < |s| && s[i] >= 0.0 by {
        if i :| 0 <= i < |s[1..]| && s[1..][i] >= 0.0 {
          assert s[i + 1] >= 0.0;
        }
      }
      if i :| 0 <= i < |s| && s[i] >= 0.0 {
        assert i > 0 ==> s[1..][i - 1] >= 0.0;
      }
    }
  }

  lemma {:induction false} MaxOfIsMax(s: seq<real>)
    requires s != []
    ensures MaxOf(s) in s && forall i :: 0 <= i < |s| ==> s[i] <= MaxOf(s)
  {
    if |s| > 1 {
      MaxOfIsMax(s[1..]);
      assert forall i :: 1 <= i < |s| ==> s[i] == s[1..][i - 1];
    }
  }

  /** What the signals are: whether another incident is open, the largest correlation confidence up to
      1, the two signals of the observations, and whether the infrastructure is sound. */
  lemma SignalsAre(
    othersOpen: nat, correlations: seq<real>, obs: Observations, mean: real, root: real, infrastructureOk: bool)
    ensures var s := ComputeSignals(othersOpen, correlations, obs, mean, root, infrastructureOk);
            && s.temporal == (if othersOpen == 0 then 0.0 else 1.0)
            && s.infrastructure == (if infrastructureOk then 1.0 else 0.0)
            && s.latency == LatencySignal(Latencies(obs), mean, root)
            && s.error == ErrorSignal(ErrorTypes(obs))
            && (correlations == [] ==> s.endpoint == 0.0)
            && (correlations != [] ==> s.endpoint == 1.0 || (s.endpoint in correlations && s.endpoint < 1.0))
            && (forall i :: 0 <= i < |correlations| ==> correlations[i] <= s.endpoint || s.endpoint == 1.0)
            && (s.endpoint == 1.0 ==> exists i :: 0 <= i < |correlations| && correlations[i] >= 1.0)
  {
    if correlations != [] {
      MaxOfIsMax(correlations);
    }
  }

  /** Every signal lies in 0..1, for any observations, exactly when the correlations' confidences are
      not all negative. */
  lemma SignalsInRange(
    othersOpen: nat, correlations: seq<real>, obs: Observations, mean: real, root: real, infrastructureOk: bool)
    ensures UnitSignals(ComputeSignals(othersOpen, correlations, obs, mean, root, infrastructureOk)) <==>
            correlations == [] || exists i :: 0 <= i < |correlations| && correlations[i] >= 0.0
  {
    if correlations != [] {
      MaxOfBounds(correlations);
    }
    if ErrorTypes(obs) != [] {
      ErrorSignalIsUnit(ErrorTypes(obs));
    }
  }

  lemma ErrorSignalIsUnit(errors: seq<string>)
    requires errors != []
    ensures 0.0 <= ErrorSignal(errors) <= 1.0
  {
    ErrorSignalBounds(errors);
    var max := MaxCount(multiset(errors), errors);
    QuotientIsNonNegative(max as real, |errors| as real);
  }

  lemma QuotientIsNonNegative(a: real, b: real)
    requires a >= 0.0 && b > 0.0
    ensures a / b >= 0.0
  {
  }

  lemma ScoreRange(x: real)
    requires 0.0 <= x <= 1.0
    ensures 0 <= Score(x) <= 10000
  {
    RoundIsMonotone(0.0, 10000.0 * x);
    RoundIsMonotone(10000.0 * x, 10000.0);
  }

  lemma WeightedThreshold(weighted: int, confidence: int)
    requires confidence == RoundHalfEven(weighted as real / 100.0)
    ensures -50 <= weighted - 100 * confidence <= 50
    ensures confidence >= 7500 <==> weighted >= 749950
    ensures confidence >= 5000 <==> weighted >= 499950
  {
    RoundIsNearest(weighted as real / 100.0, confidence);
    RoundAtLeast(weighted as real / 100.0, 7500);
    RoundAtLeast(weighted as real / 100.0, 5000);
  }

  lemma RoundAtLeast(x: real, n: int)
    requires n % 2 == 0
    ensures RoundHalfEven(x) >= n <==> x >= n as real - 0.5
  {
    RoundIsNearest(n as real - 0.5, n);
    if x >= n as real - 0.5 {
      RoundIsMonotone(n as real - 0.5, x);
    }
    RoundIsNearest(x, RoundHalfEven(x));
  }

  /** The confidence is the nearest hundredth to the weighted sum of the scores, and the class follows
      from that sum alone: from 74.995 percent a vendor failure, from 49.995 several causes, and below
      that an infrastructure issue just when the infrastructure was at fault. */
  lemma ClassifiedIff(s: Scores, infrastructureOk: bool, weighted: int)
    requires weighted == 20 * s.temporal + 25 * s.endpoint + 25 * s.latency + 15 * s.error + 15 * s.infrastructure
    ensures -50 <= weighted - 100 * Confidence(s) <= 50
    ensures Classify(Confidence(s), infrastructureOk) == VendorFailure <==> weighted >= 749950
    ensures Classify(Confidence(s), infrastructureOk) == MultiCause <==> 499950 <= weighted < 749950
    ensures Classify(Confidence(s), infrastructureOk) == InfrastructureIssue <==>
            weighted < 499950 && !infrastructureOk
    ensures Classify(Confidence(s), infrastructureOk) == Unknown <==> weighted < 499950 && infrastructureOk
  {
    WeightedThreshold(weighted, Confidence(s));
  }

  /** Each score is a nearest ten-thousandth to its signal. */
  lemma ScoresAreNearest(s: Signals, scores: Scores)
    requires scores == ComputeScores(s)
    ensures -0.5 <= 10000.0 * s.temporal - scores.temporal as real <= 0.5
    ensures -0.5 <= 10000.0 * s.endpoint - scores.endpoint as real <= 0.5
    ensures -0.5 <= 10000.0 * s.latency - scores.latency as real <= 0.5
    ensures -0.5 <= 10000.0 * s.error - scores.error as real <= 0.5
    ensures -0.5 <= 10000.0 * s.infrastructure - scores.infrastructure as real <= 0.5
  {
    RoundIsNearest(10000.0 * s.temporal, scores.temporal);
    RoundIsNearest(10000.0 * s.endpoint, scores.endpoint);
    RoundIsNearest(10000.0 * s.latency, scores.latency);
    RoundIsNearest(10000.0 * s.error, scores.error);
    RoundIsNearest(10000.0 * s.infrastructure, scores.infrastructure);
  }

  /** The confidence lies in 0..100 percent; with the infrastructure at fault it cannot pass 85, and
      without it cannot fall below 15. */
  lemma ConfidenceInRange(s: Signals)
    requires UnitSignals(s)
    ensures 0 <= Confidence(ComputeScores(s)) <= 10000
    ensures s.infrastructure == 0.0 ==> Confidence(ComputeScores(s)) <= 8500
    ensures s.infrastructure == 1.0 ==> Confidence(ComputeScores(s)) >= 1500
  {
    ScoreRange(s.temporal);
    ScoreRange(s.endpoint);
    ScoreRange(s.latency);
    ScoreRange(s.error);
    ScoreRange(s.infrastructure);
  }

  /** Raising signals other than the infrastructure one never lowers the confidence or the class. */
  lemma RaisingSignalsRaisesConfidence(a: Signals, b: Signals, infrastructureOk: bool)
    requires a.temporal <= b.temporal && a.endpoint <= b.endpoint && a.latency <= b.latency && a.error <= b.error
    requires a.infrastructure == b.infrastructure
    ensures Confidence(ComputeScores(a)) <= Confidence(ComputeScores(b))
    ensures Rank(Classify(Confidence(ComputeScores(a)), infrastructureOk)) <=
            Rank(Classify(Confidence(ComputeScores(b)), infrastructureOk))
  {
    RoundIsMonotone(10000.0 * a.temporal, 10000.0 * b.temporal);
    RoundIsMonotone(10000.0 * a.endpoint, 10000.0 * b.endpoint);
    RoundIsMonotone(10000.0 * a.latency, 10000.0 * b.latency);
    RoundIsMonotone(10000.0 * a.error, 10000.0 * b.error);
    RaisingScoresRaisesConfidence(ComputeScores(a), ComputeScores(b));
  }

  lemma RaisingScoresRaisesConfidence(a: Scores, b: Scores)
    requires a.temporal <= b.temporal && a.endpoint <= b.endpoint && a.latency <= b.latency && a.error <= b.error
    requires a.infrastructure == b.infrastructure
    ensures Confidence(a) <= Confidence(b)
  {
    RoundIsMonotone(
      (20 * a.temporal + 25 * a.endpoint + 25 * a.latency + 15 * a.error + 15 * a.infrastructure) as real / 100.0,
      (20 * b.temporal + 25 * b.endpoint + 25 * b.latency + 15 * b.error + 15 * b.infrastructure) as real / 100.0);
  }

  // ---------------------------------------------------------------- order of the observations

  /** Which latencies enter: those of the observations that have one, negative ones as 0; and which error
      types: those that are recorded and not empty. */
  lemma OneObservation(o: Option<Observation>)
    ensures Latencies([o]) ==
            if o.Some? && o.value.latency.Some?
            then [if o.value.latency.value < 0.0 then 0.0 else o.value.latency.value] else []
    ensures ErrorTypes([o]) ==
            if o.Some? && o.value.errorType.Some? && |o.value.errorType.value| > 0
            then [o.value.errorType.value] else []
    ensures SupportingObservations([o]) ==
            if o.Some? && (o.value.errorType.Some? || !o.value.hasStatus) then [Observed(o.value.id)] else []
  {
    assert [o][1..] == [];
  }

  lemma {:induction false} LatenciesOfConcat(a: Observations, b: Observations)
    ensures Latencies(a + b) == Latencies(a) + Latencies(b)
  {
    if a == [] {
      assert a + b == b;
    } else {
      assert (a + b)[1..] == a[1..] + b;
      LatenciesOfConcat(a[1..], b);
    }
  }

  lemma {:induction false} ErrorTypesOfConcat(a: Observations, b: Observations)
    ensures ErrorTypes(a + b) == ErrorTypes(a) + ErrorTypes(b)
  {
    if a == [] {
      assert a + b == b;
    } else {
      assert (a + b)[1..] == a[1..] + b;
      ErrorTypesOfConcat(a[1..], b);
    }
  }

  lemma WithoutFirst<T>(a: seq<T>)
    requires a != []
    ensures multiset(a[1..]) == multiset(a) - multiset{a[0]}
  {
    assert a == [a[0]] + a[1..];
  }

  lemma WithoutInner<T>(front: seq<T>, x: T, back: seq<T>)
    ensures multiset(front + back) == multiset(front + [x] + back) - multiset{x}
  {
  }

  /** The same elements in another order: `b` without the place of `a`'s first one. */
  lemma Removed<T>(a: seq<T>, b: seq<T>) returns (front: seq<T>, back: seq<T>)
    requires a != [] && multiset(a) == multiset(b)
    ensures b == front + [a[0]] + back
    ensures multiset(a[1..]) == multiset(front + back)
  {
    assert a[0] in multiset(a);
    var i :| 0 <= i < |b| && b[i] == a[0];
    front, back := b[..i], b[i + 1..];
    WithoutFirst(a);
    WithoutInner(front, a[0], back);
    assert b == front + [a[0]] + back;
  }

  lemma LatenciesInserted(front: Observations, o: Option<Observation>, back: Observations)
    ensures multiset(Latencies(front + [o] + back)) == multiset(Latencies([o])) + multiset(Latencies(front + back))
  {
    LatenciesOfConcat(front, back);
    LatenciesOfConcat(front + [o], back);
    LatenciesOfConcat(front, [o]);
  }

  lemma {:induction false} ReorderedLatencies(a: Observations, b: Observations)
    requires multiset(a) == multiset(b)
    ensures multiset(Latencies(a)) == multiset(Latencies(b))
    decreases |a|
  {
    if a == [] {
      assert |multiset(b)| == |b|;
    } else {
      var front, back := Removed(a, b);
      ReorderedLatencies(a[1..], front + back);
      LatenciesInserted(front, a[0], back);
      assert a == [a[0]] + a[1..];
      LatenciesOfConcat([a[0]], a[1..]);
    }
  }

  lemma ErrorTypesInserted(front: Observations, o: Option<Observation>, back: Observations)
    ensures multiset(ErrorTypes(front + [o] + back)) == multiset(ErrorTypes([o])) + multiset(ErrorTypes(front + back))
  {
    ErrorTypesOfConcat(front, back);
    ErrorTypesOfConcat(front + [o], back);
    ErrorTypesOfConcat(front, [o]);
  }

  lemma {:induction false} ReorderedErrors(a: Observations, b: Observations)
    requires multiset(a) == multiset(b)
    ensures multiset(ErrorTypes(a)) == multiset(ErrorTypes(b))
    decreases |a|
  {
    if a == [] {
      assert |multiset(b)| == |b|;
    } else {
      var front, back := Removed(a, b);
      ReorderedErrors(a[1..], front + back);
      ErrorTypesInserted(front, a[0], back);
      assert a == [a[0]] + a[1..];
      ErrorTypesOfConcat([a[0]], a[1..]);
    }
  }

  lemma {:induction false} SumsOfConcat(a: seq<real>, b: seq<real>, m: real)
    ensures Sum(a + b) == Sum(a) + Sum(b)
    ensures SquaredDeviations(a + b, m) == SquaredDeviations(a, m) + SquaredDeviations(b, m)
  {
    if a == [] {
      assert a + b == b;
    } else {
      assert (a + b)[1..] == a[1..] + b;
      SumsOfConcat(a[1..], b, m);
    }
  }

  lemma {:induction false} ReorderedSums(a: seq<real>, b: seq<real>, m: real)
    requires multiset(a) == multiset(b)
    ensures Sum(a) == Sum(b) && SquaredDeviations(a, m) == SquaredDeviations(b, m) && |a| == |b|
    decreases |a|
  {
    assert |multiset(a)| == |a| && |multiset(b)| == |b|;
    if a != [] {
      var front, back := Removed(a, b);
      ReorderedSums(a[1..], front + back, m);
      SumsOfConcat(front, back, m);
      SumsOfConcat(front + [a[0]], back, m);
      SumsOfConcat(front, [a[0]], m);
    }
  }

  lemma {:induction false} ReorderedMaxCount(counts: multiset<string>, a: seq<string>, b: seq<string>)
    requires multiset(a) == multiset(b)
    ensures MaxCount(counts, a) == MaxCount(counts, b)
  {
    assert |multiset(a)| == |a| && |multiset(b)| == |b|;
    MaxCountIsMax(counts, a);
    MaxCountIsMax(counts, b);
    assert forall e :: e in a <==> e in multiset(a);
    assert forall e :: e in b <==> e in multiset(b);
  }

  lemma ReorderedErrorSignal(a: seq<string>, b: seq<string>)
    requires multiset(a) == multiset(b)
    ensures ErrorSignal(a) == ErrorSignal(b)
  {
    assert |multiset(a)| == |a| && |multiset(b)| == |b|;
    ReorderedMaxCount(multiset(a), a, b);
  }

  lemma ReorderedLatencySignal(a: seq<real>, b: seq<real>, mean: real, root: real)
    requires multiset(a) == multiset(b)
    ensures LatencySignal(a, mean, root) == LatencySignal(b, mean, root)
  {
    assert |multiset(a)| == |a| && |multiset(b)| == |b|;
  }

  /** The order of the observations plays no part: reordered ones have the same number and sum of
      latencies, the same deviations from any mean, and the same signals. */
  lemma OrderIsIrrelevant(
    othersOpen: nat, correlations: seq<real>, a: Observations, b: Observations, mean: real, root: real, ok: bool)
    requires multiset(a) == multiset(b)
    ensures |Latencies(a)| == |Latencies(b)| && Sum(Latencies(a)) == Sum(Latencies(b))
    ensures SquaredDeviations(Latencies(a), mean) == SquaredDeviations(Latencies(b), mean)
    ensures ComputeSignals(othersOpen, correlations, a, mean, root, ok) ==
            ComputeSignals(othersOpen, correlations, b, mean, root, ok)
  {
    ReorderedLatencies(a, b);
    ReorderedErrors(a, b);
    ReorderedSums(Latencies(a), Latencies(b), mean);
    ReorderedLatencySignal(Latencies(a), Latencies(b), mean, root);
    ReorderedErrorSignal(ErrorTypes(a), ErrorTypes(b));
  }

  // ---------------------------------------------------------------- evidence

  datatype Evidence = Observed(id: nat) | Signal(name: string, score: int)

  predicate Supports(o: Option<Observation>) {
    o.Some? && (o.value.errorType.Some? || !o.value.hasStatus)
  }

  function AllSignals(named: seq<(string, int)>): seq<Evidence> {
    if named == [] then [] else [Signal(named[0].0, named[0].1)] + AllSignals(named[1..])
  }

  function ContradictingSignals(named: seq<(string, int)>): seq<Evidence> {
    if named == [] then []
    else if named[0].1 < 5000 then [Signal(named[0].0, named[0].1)] + ContradictingSignals(named[1..])
    else ContradictingSignals(named[1..])
  }

  function SupportingSignals(named: seq<(string, int)>): seq<Evidence> {
    if named == [] then []
    else if named[0].1 >= 5000 then [Signal(named[0].0, named[0].1)] + SupportingSignals(named[1..])
    else SupportingSignals(named[1..])
  }

  function SupportingObservations(obs: Observations): seq<Evidence> {
    if obs == [] then []
    else if Supports(obs[0]) then [Observed(obs[0].value.id)] + SupportingObservations(obs[1..])
    else SupportingObservations(obs[1..])
  }

  lemma {:induction false} SupportingOfConcat(a: Observations, b: Observations)
    ensures SupportingObservations(a + b) == SupportingObservations(a) + SupportingObservations(b)
  {
    if a == [] {
      assert a + b == b;
    } else {
      assert (a + b)[1..] == a[1..] + b;
      SupportingOfConcat(a[1..], b);
    }
  }

  /** A signal supports the attribution from one half on, and contradicts it below. */
  lemma {:induction false} SignalSides(named: seq<(string, int)>, name: string, score: int)
    ensures Signal(name, score) in SupportingSignals(named) <==> (name, score) in named && score >= 5000
    ensures Signal(name, score) in ContradictingSignals(named) <==> (name, score) in named && score < 5000
  {
    if named != [] {
      SignalSides(named[1..], name, score);
      assert (name, score) in named <==> (name, score) == named[0] || (name, score) in named[1..];
    }
  }

  method CollectSupporting(obs: Observations, named: seq<(string, int)>) returns (evidence: seq<Evidence>)
    ensures evidence == SupportingObservations(obs) + SupportingSignals(named)
  {
    evidence := SupportingObservations(obs);
    var i := 0;
    while i < |named|
      invariant i <= |named|
      invariant evidence + SupportingSignals(named[i..]) == SupportingObservations(obs) + SupportingSignals(named)
    {
      if named[i].1 >= 5000 {
        evidence := evidence + [Signal(named[i].0, named[i].1)];
      }
      assert named[i..][1..] == named[i + 1..];
      i := i + 1;
    }
  }

  /** Every signal is evidence once: for the attribution or against it. */
  lemma {:induction false} EvidenceSplitsSignals(named: seq<(string, int)>)
    ensures multiset(SupportingSignals(named)) + multiset(ContradictingSignals(named)) == multiset(AllSignals(named))
  {
    if named != [] {
      EvidenceSplitsSignals(named[1..]);
    }
  }
}
