/**
 The keystroke-dynamics engine (src/utils/keystrokeAnalysis.ts): feature
 extraction, averaging of enrolment samples, the per-channel similarity score
 and the accept/reject rule.

 Each loop of keystrokeAnalysis.ts is a method that follows it step by step and
 is proved equal to a pointwise reference definition; the reference definitions
 are what the state machines and the lemmas use.

 The TypeScript implementation divides by `max(a[i], b[i])` and by the
 sequence length, and reads `patterns[0]`; where those would yield NaN or an
 infinity the model has a precondition instead (`Comparable`, `Averageable`).
 */
module KeystrokeAnalysis {
  import opened AuthTypes

  /** The fixed acceptance threshold on the composite score. */
  const Threshold: real := 0.75

  // ---------------------------------------------------------------------------
  // Feature extraction
  // ---------------------------------------------------------------------------

  /** How long key `k` was held down. */
  function Hold(k: KeystrokeData): real
  {
    k.keyUpTime - k.keyDownTime
  }

  /** Time from releasing `prev` to pressing `next`; negative when the two overlap. */
  function Flight(prev: KeystrokeData, next: KeystrokeData): real
  {
    next.keyDownTime - prev.keyUpTime
  }

  /** Number of flight times of an entry of `n` keystrokes. */
  function FlightCount(n: nat): nat
  {
    if n == 0 then 0 else n - 1
  }

  /** Reference definition of an entry's feature vector, index by index. */
  function Metrics(ks: seq<KeystrokeData>): KeystrokePattern
  {
    KeystrokePattern(
      seq(|ks|, i requires 0 <= i < |ks| => Hold(ks[i])),
      seq(FlightCount(|ks|), i requires 0 <= i < FlightCount(|ks|) => Flight(ks[i], ks[i + 1])))
  }

  /** The extraction loop of `calculateKeystrokeMetrics`: one pass that pushes
      a hold time for every keystroke and a flight time for every keystroke but
      the last. */
  method CalculateKeystrokeMetrics(keystrokes: seq<KeystrokeData>) returns (p: KeystrokePattern)
    ensures |p.durationTimes| == |keystrokes|
    ensures forall i :: 0 <= i < |keystrokes| ==>
              p.durationTimes[i] == keystrokes[i].keyUpTime - keystrokes[i].keyDownTime
    ensures |p.flightTimes| == FlightCount(|keystrokes|)
    ensures forall i :: 0 <= i < |p.flightTimes| ==>
              p.flightTimes[i] == keystrokes[i + 1].keyDownTime - keystrokes[i].keyUpTime
    ensures p == Metrics(keystrokes)
  {
    var durationTimes: seq<real> := [];
    var flightTimes: seq<real> := [];
    for i := 0 to |keystrokes|
      invariant |durationTimes| == i
      invariant forall j :: 0 <= j < i ==> durationTimes[j] == Hold(keystrokes[j])
      invariant |flightTimes| == if i == |keystrokes| then FlightCount(i) else i
      invariant |flightTimes| <= FlightCount(|keystrokes|)
      invariant forall j :: 0 <= j < |flightTimes| ==> flightTimes[j] == Flight(keystrokes[j], keystrokes[j + 1])
    {
      durationTimes := durationTimes + [Hold(keystrokes[i])];
      if i < |keystrokes| - 1 {
        flightTimes := flightTimes + [Flight(keystrokes[i], keystrokes[i + 1])];
      }
    }
    p := KeystrokePattern(durationTimes, flightTimes);
  }

  /** Extending an entry extends both of its feature sequences: the vector of
      `ks` is a prefix of the vector of `ks + more`. */
  lemma MetricsOfExtension(ks: seq<KeystrokeData>, more: seq<KeystrokeData>)
    ensures Metrics(ks).durationTimes <= Metrics(ks + more).durationTimes
    ensures Metrics(ks).flightTimes <= Metrics(ks + more).flightTimes
  {
    var long := ks + more;
    assert forall i :: 0 <= i < |ks| ==> long[i] == ks[i];
  }

  // ---------------------------------------------------------------------------
  // Sums
  // ---------------------------------------------------------------------------

  /** Left-to-right sum, in the order the TypeScript loops accumulate. */
  function Sum(s: seq<real>): real
  {
    if s == [] then 0.0 else Sum(s[..|s| - 1]) + s[|s| - 1]
  }

  lemma SumAppend(s: seq<real>, x: real)
    ensures Sum(s + [x]) == Sum(s) + x
  {
    assert (s + [x])[..|s|] == s;
  }

  /** A sum of terms in (0, 1] lies in (0, |s|]. */
  lemma {:induction false} SumBounds(s: seq<real>)
    requires forall i :: 0 <= i < |s| ==> 0.0 < s[i] <= 1.0
    ensures |s| > 0 ==> 0.0 < Sum(s)
    ensures Sum(s) <= |s| as real
  {
    if s != [] {
      SumBounds(s[..|s| - 1]);
    }
  }

  /** A sum of terms at most 1 reaches |s| exactly when every term is 1. */
  lemma {:induction false} SumFullIff(s: seq<real>)
    requires forall i :: 0 <= i < |s| ==> s[i] <= 1.0
    ensures Sum(s) == |s| as real <==> forall i :: 0 <= i < |s| ==> s[i] == 1.0
  {
    if s != [] {
      var init := s[..|s| - 1];
      SumFullIff(init);
      SumAtMostLength(init);
      if Sum(s) == |s| as real {
        assert Sum(init) == |init| as real;
        assert s == init + [s[|s| - 1]];
      }
    }
  }

  lemma {:induction false} SumAtMostLength(s: seq<real>)
    requires forall i :: 0 <= i < |s| ==> s[i] <= 1.0
    ensures Sum(s) <= |s| as real
  {
    if s != [] {
      SumAtMostLength(s[..|s| - 1]);
    }
  }

  /** A sum of |s| copies of `c` is |s| * c. */
  lemma {:induction false} SumConstant(s: seq<real>, c: real)
    requires forall i :: 0 <= i < |s| ==> s[i] == c
    ensures Sum(s) == (|s| as real) * c
  {
    if s != [] {
      SumConstant(s[..|s| - 1], c);
    }
  }

  // ---------------------------------------------------------------------------
  // Averaging of enrolment samples
  // ---------------------------------------------------------------------------

  /** What the averaging loop needs to stay numeric: at least one sample, and no
      sample shorter than the first one, whose length sets the result's. */
  predicate Averageable(patterns: seq<seq<real>>)
  {
    |patterns| > 0 && forall j :: 0 <= j < |patterns| ==> |patterns[j]| >= |patterns[0]|
  }

  /** The values at index `i` of every sample, in sample order. */
  function Column(patterns: seq<seq<real>>, i: nat): seq<real>
    requires forall j :: 0 <= j < |patterns| ==> i < |patterns[j]|
  {
    seq(|patterns|, j requires 0 <= j < |patterns| => patterns[j][i])
  }

  /** Reference definition of the element-wise mean of the samples. */
  function AveragePattern(patterns: seq<seq<real>>): seq<real>
    requires Averageable(patterns)
  {
    seq(|patterns[0]|, i requires 0 <= i < |patterns[0]| => Sum(Column(patterns, i)) / (|patterns| as real))
  }

  /** The averaging loop of `calculateAveragePattern`: a zero-filled array of
      the first sample's length, each slot overwritten by its column sum divided
      by the number of samples. */
  method CalculateAveragePattern(patterns: seq<seq<real>>) returns (result: seq<real>)
    requires Averageable(patterns)
    ensures |result| == |patterns[0]|
    ensures forall i :: 0 <= i < |result| ==>
              result[i] == Sum(Column(patterns, i)) / (|patterns| as real)
    ensures result == AveragePattern(patterns)
  {
    var length := |patterns[0]|;
    result := seq(length, _ => 0.0);
    for i := 0 to length
      invariant |result| == length
      invariant forall k :: 0 <= k < i ==> result[k] == Sum(Column(patterns, k)) / (|patterns| as real)
    {
      ghost var column := Column(patterns, i);
      var sum := 0.0;
      for j := 0 to |patterns|
        invariant sum == Sum(column[..j])
      {
        assert column[..j + 1] == column[..j] + [patterns[j][i]];
        SumAppend(column[..j], patterns[j][i]);
        sum := sum + patterns[j][i];
      }
      assert column[..|patterns|] == column;
      result := result[i := sum / (|patterns| as real)];
    }
  }

  /** When every sample extends the first one, the mean is the first sample. */
  lemma AverageOfExtensions(patterns: seq<seq<real>>)
    requires |patterns| > 0
    requires forall j :: 0 <= j < |patterns| ==> patterns[0] <= patterns[j]
    ensures Averageable(patterns)
    ensures AveragePattern(patterns) == patterns[0]
  {
    var n := |patterns| as real;
    forall i | 0 <= i < |patterns[0]|
      ensures Sum(Column(patterns, i)) / n == patterns[0][i]
    {
      SumConstant(Column(patterns, i), patterns[0][i]);
    }
  }

  /** Averaging k >= 1 copies of one sample gives that sample back. */
  lemma AverageOfCopies(s: seq<real>, k: nat)
    requires k >= 1
    ensures Averageable(seq(k, _ => s))
    ensures AveragePattern(seq(k, _ => s)) == s
  {
    AverageOfExtensions(seq(k, _ => s));
  }

  // ---------------------------------------------------------------------------
  // Similarity of one channel
  // ---------------------------------------------------------------------------

  function Abs(x: real): real
  {
    if x < 0.0 then -x else x
  }

  function Max(x: real, y: real): real
  {
    if x >= y then x else y
  }

  function Min(x: real, y: real): real
  {
    if x <= y then x else y
  }

  /** Contribution of one index: 1 - |x - y| / max(x, y). */
  function Term(x: real, y: real): real
    requires Max(x, y) != 0.0
  {
    1.0 - Abs(x - y) / Max(x, y)
  }

  /** Whether the score of `a` against `b` is a number: sequences of different
      lengths always are (score 0); equal-length ones need at least one index
      and a non-zero maximum at every index. */
  predicate Comparable(a: seq<real>, b: seq<real>)
  {
    |a| == |b| ==> |a| > 0 && forall i :: 0 <= i < |a| ==> Max(a[i], b[i]) != 0.0
  }

  function Terms(a: seq<real>, b: seq<real>): seq<real>
    requires |a| == |b| && Comparable(a, b)
  {
    seq(|a|, i requires 0 <= i < |a| => Term(a[i], b[i]))
  }

  /** Reference definition of the channel score: 0 on a length mismatch,
      otherwise the mean of the per-index terms. */
  function Similarity(a: seq<real>, b: seq<real>): real
    requires Comparable(a, b)
  {
    if |a| != |b| then 0.0 else Sum(Terms(a, b)) / (|a| as real)
  }

  /** The scoring loop of `calculateSimilarity`. */
  method CalculateSimilarity(pattern1: seq<real>, pattern2: seq<real>) returns (r: real)
    requires Comparable(pattern1, pattern2)
    ensures |pattern1| != |pattern2| ==> r == 0.0
    ensures r == Similarity(pattern1, pattern2)
  {
    if |pattern1| != |pattern2| {
      return 0.0;
    }
    ghost var terms := Terms(pattern1, pattern2);
    var similarity := 0.0;
    for i := 0 to |pattern1|
      invariant similarity == Sum(terms[..i])
    {
      var diff := Abs(pattern1[i] - pattern2[i]);
      var max := Max(pattern1[i], pattern2[i]);
      assert terms[..i + 1] == terms[..i] + [terms[i]];
      SumAppend(terms[..i], terms[i]);
      similarity := similarity + (1.0 - diff / max);
    }
    assert terms[..|pattern1|] == terms;
    r := similarity / (|pattern1| as real);
  }

  /** All entries strictly positive. */
  predicate Positive(s: seq<real>)
  {
    forall i :: 0 <= i < |s| ==> s[i] > 0.0
  }

  /** For positive times a term is min / max: in (0, 1], and 1 exactly when the
      two times agree. */
  lemma TermOfPositives(x: real, y: real)
    requires x > 0.0 && y > 0.0
    ensures Term(x, y) == Min(x, y) / Max(x, y)
    ensures 0.0 < Term(x, y) <= 1.0
    ensures Term(x, y) == 1.0 <==> x == y
  {
    var m, n := Max(x, y), Min(x, y);
    assert Abs(x - y) == m - n;
    assert (m - n) / m == m / m - n / m;
    assert m / m == 1.0;
  }

  lemma TermsOfPositives(a: seq<real>, b: seq<real>)
    requires |a| == |b| > 0 && Positive(a) && Positive(b)
    ensures Comparable(a, b)
    ensures forall i :: 0 <= i < |a| ==> 0.0 < Terms(a, b)[i] <= 1.0
    ensures forall i :: 0 <= i < |a| ==> (Terms(a, b)[i] == 1.0 <==> a[i] == b[i])
  {
    forall i | 0 <= i < |a|
      ensures 0.0 < Term(a[i], b[i]) <= 1.0 && (Term(a[i], b[i]) == 1.0 <==> a[i] == b[i])
    {
      TermOfPositives(a[i], b[i]);
    }
  }

  /** A length mismatch scores exactly 0, whatever the contents. */
  lemma SimilarityOfMismatchedLengths(a: seq<real>, b: seq<real>)
    requires |a| != |b|
    ensures Comparable(a, b) && Similarity(a, b) == 0.0
  {
  }

  /** For equal-length, non-empty, positive sequences the score lies in (0, 1]. */
  lemma SimilarityInUnitInterval(a: seq<real>, b: seq<real>)
    requires |a| == |b| > 0 && Positive(a) && Positive(b)
    ensures Comparable(a, b)
    ensures 0.0 < Similarity(a, b) <= 1.0
  {
    TermsOfPositives(a, b);
    SumBounds(Terms(a, b));
  }

  /** ... and it is 1 exactly when the two sequences are identical. */
  lemma SimilarityOneIffEqual(a: seq<real>, b: seq<real>)
    requires |a| == |b| > 0 && Positive(a) && Positive(b)
    ensures Comparable(a, b)
    ensures Similarity(a, b) == 1.0 <==> a == b
  {
    TermsOfPositives(a, b);
    var t := Terms(a, b);
    var n := |a| as real;
    SumFullIff(t);
    if Similarity(a, b) == 1.0 {
      assert Sum(t) == n;
      assert forall i :: 0 <= i < |a| ==> a[i] == b[i];
    }
  }

  /** The score does not depend on the order of its arguments. */
  lemma SimilaritySymmetric(a: seq<real>, b: seq<real>)
    requires Comparable(a, b)
    ensures Comparable(b, a)
    ensures Similarity(a, b) == Similarity(b, a)
  {
    if |a| == |b| {
      assert forall i :: 0 <= i < |a| ==> Max(a[i], b[i]) == Max(b[i], a[i]);
      assert Terms(a, b) == Terms(b, a);
    }
  }

  /** Every time doubled: each term is x / 2x, so the score is exactly 1/2. */
  lemma SimilarityOfDoubled(a: seq<real>)
    requires |a| > 0 && Positive(a)
    ensures Comparable(a, Doubled(a))
    ensures Similarity(a, Doubled(a)) == 0.5
  {
    var d := Doubled(a);
    assert forall i :: 0 <= i < |a| ==> Max(a[i], d[i]) == 2.0 * a[i];
    var t := Terms(a, d);
    forall i | 0 <= i < |a|
      ensures t[i] == 0.5
    {
      assert Abs(a[i] - d[i]) == a[i];
      HalfOfDouble(a[i]);
    }
    SumConstant(t, 0.5);
  }

  lemma HalfOfDouble(x: real)
    requires x > 0.0
    ensures x / (2.0 * x) == 0.5
  {
    var y := 2.0 * x;
    assert y * 0.5 == x;
    assert x / y == (y * 0.5) / y;
  }

  function Doubled(a: seq<real>): seq<real>
  {
    seq(|a|, i requires 0 <= i < |a| => 2.0 * a[i])
  }

  // ---------------------------------------------------------------------------
  // Decision
  // ---------------------------------------------------------------------------

  function DurationSamples(stored: seq<KeystrokePattern>): seq<seq<real>>
  {
    seq(|stored|, j requires 0 <= j < |stored| => stored[j].durationTimes)
  }

  function FlightSamples(stored: seq<KeystrokePattern>): seq<seq<real>>
  {
    seq(|stored|, j requires 0 <= j < |stored| => stored[j].flightTimes)
  }

  /** Both templates can be averaged and both channel scores are numbers. */
  predicate Scorable(stored: seq<KeystrokePattern>, current: KeystrokePattern)
  {
    && Averageable(DurationSamples(stored))
    && Averageable(FlightSamples(stored))
    && Comparable(AveragePattern(DurationSamples(stored)), current.durationTimes)
    && Comparable(AveragePattern(FlightSamples(stored)), current.flightTimes)
  }

  function DurationScore(stored: seq<KeystrokePattern>, current: KeystrokePattern): real
    requires Scorable(stored, current)
  {
    Similarity(AveragePattern(DurationSamples(stored)), current.durationTimes)
  }

  function FlightScore(stored: seq<KeystrokePattern>, current: KeystrokePattern): real
    requires Scorable(stored, current)
  {
    Similarity(AveragePattern(FlightSamples(stored)), current.flightTimes)
  }

  /** Accept iff the mean of the two channel scores reaches the threshold. */
  function ComparePatterns(stored: seq<KeystrokePattern>, current: KeystrokePattern): (accepted: bool)
    requires Scorable(stored, current)
    // an accepted attempt has the template's length in at least one channel
    ensures accepted ==>
              || |current.durationTimes| == |AveragePattern(DurationSamples(stored))|
              || |current.flightTimes| == |AveragePattern(FlightSamples(stored))|
    // both channel scores at 1 always pass; both at 1/2 or below never do
    ensures DurationScore(stored, current) == 1.0 && FlightScore(stored, current) == 1.0 ==> accepted
    ensures DurationScore(stored, current) <= 0.5 && FlightScore(stored, current) <= 0.5 ==> !accepted
  {
    (DurationScore(stored, current) + FlightScore(stored, current)) / 2.0 >= Threshold
  }

  /** If neither channel of the attempt has the template's length, it is rejected. */
  lemma RejectsWhenBothChannelsMismatch(stored: seq<KeystrokePattern>, current: KeystrokePattern)
    requires Averageable(DurationSamples(stored)) && Averageable(FlightSamples(stored))
    requires |AveragePattern(DurationSamples(stored))| != |current.durationTimes|
    requires |AveragePattern(FlightSamples(stored))| != |current.flightTimes|
    ensures Scorable(stored, current)
    ensures !ComparePatterns(stored, current)
  {
  }

  /** With positive times, a length mismatch in either channel alone already
      rejects: the other channel scores at most 1, so the mean is at most 1/2. */
  lemma RejectsWhenOneChannelMismatches(stored: seq<KeystrokePattern>, current: KeystrokePattern)
    requires Scorable(stored, current)
    requires Positive(AveragePattern(DurationSamples(stored))) && Positive(current.durationTimes)
    requires Positive(AveragePattern(FlightSamples(stored))) && Positive(current.flightTimes)
    requires |AveragePattern(DurationSamples(stored))| != |current.durationTimes|
          || |AveragePattern(FlightSamples(stored))| != |current.flightTimes|
    ensures !ComparePatterns(stored, current)
  {
    var avgD := AveragePattern(DurationSamples(stored));
    var avgF := AveragePattern(FlightSamples(stored));
    if |avgD| == |current.durationTimes| {
      SimilarityInUnitInterval(avgD, current.durationTimes);
    }
    if |avgF| == |current.flightTimes| {
      SimilarityInUnitInterval(avgF, current.flightTimes);
    }
  }

  /** Samples that all equal the attempt (positive, at least two keys' worth)
      give a composite of exactly 1, so the attempt is accepted. */
  lemma AcceptsIdenticalSamples(stored: seq<KeystrokePattern>, current: KeystrokePattern)
    requires |stored| > 0
    requires forall j :: 0 <= j < |stored| ==> stored[j] == current
    requires |current.durationTimes| > 0 && Positive(current.durationTimes)
    requires |current.flightTimes| > 0 && Positive(current.flightTimes)
    ensures Scorable(stored, current)
    ensures DurationScore(stored, current) == 1.0 && FlightScore(stored, current) == 1.0
    ensures ComparePatterns(stored, current)
  {
    assert DurationSamples(stored) == seq(|stored|, _ => current.durationTimes);
    assert FlightSamples(stored) == seq(|stored|, _ => current.flightTimes);
    AverageOfCopies(current.durationTimes, |stored|);
    AverageOfCopies(current.flightTimes, |stored|);
    SimilarityOneIffEqual(current.durationTimes, current.durationTimes);
    SimilarityOneIffEqual(current.flightTimes, current.flightTimes);
  }

  /** Templates from n-key entries reject every entry of a different length
      m >= 1: both channels mismatch. */
  lemma RejectsDifferentLengthEntry(stored: seq<KeystrokePattern>, n: nat, ks: seq<KeystrokeData>)
    requires |stored| > 0 && n >= 1 && |ks| >= 1 && |ks| != n
    requires forall j :: 0 <= j < |stored| ==>
               |stored[j].durationTimes| == n && |stored[j].flightTimes| == n - 1
    ensures Scorable(stored, Metrics(ks))
    ensures DurationScore(stored, Metrics(ks)) == 0.0 && FlightScore(stored, Metrics(ks)) == 0.0
    ensures !ComparePatterns(stored, Metrics(ks))
  {
    var d := DurationSamples(stored);
    var f := FlightSamples(stored);
    assert |d[0]| == n && |f[0]| == n - 1;
    assert Averageable(d) && Averageable(f);
    RejectsWhenBothChannelsMismatch(stored, Metrics(ks));
  }

  /** The threshold is inclusive: an attempt whose hold times are all doubled
      but whose flight times match the template scores exactly 0.75 and is
      accepted. */
  lemma DoubledHoldsWithSameFlightsAccepted(stored: seq<KeystrokePattern>, current: KeystrokePattern)
    requires |stored| > 0
    requires forall j :: 0 <= j < |stored| ==> stored[j] == KeystrokePattern(current.durationTimes, current.flightTimes)
    requires |current.durationTimes| > 0 && Positive(current.durationTimes)
    requires |current.flightTimes| > 0 && Positive(current.flightTimes)
    ensures Scorable(stored, KeystrokePattern(Doubled(current.durationTimes), current.flightTimes))
    ensures ComparePatterns(stored, KeystrokePattern(Doubled(current.durationTimes), current.flightTimes))
  {
    var attempt := KeystrokePattern(Doubled(current.durationTimes), current.flightTimes);
    assert DurationSamples(stored) == seq(|stored|, _ => current.durationTimes);
    assert FlightSamples(stored) == seq(|stored|, _ => current.flightTimes);
    AverageOfCopies(current.durationTimes, |stored|);
    AverageOfCopies(current.flightTimes, |stored|);
    SimilarityOfDoubled(current.durationTimes);
    SimilarityOneIffEqual(current.flightTimes, current.flightTimes);
    assert DurationScore(stored, attempt) == 0.5;
    assert FlightScore(stored, attempt) == 1.0;
  }
}
