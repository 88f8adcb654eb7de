/**
 * The state comparer: a weighted fuzzy score between two fingerprints, the
 * match test against a threshold, and the best-match scan over known states.
 *
 * Every sub-score is a ratio of counts or a weighted average, computed here on
 * exact reals.
 */
module StateComparer {
  import opened Wrappers
  import opened Strings
  import opened Fingerprints
  import opened UiStates
  import opened SimilarityMetrics

  /** Similarity at or above which two states are the same state. */
  const MatchThreshold: real := 0.80

  /** The weight of each fingerprint dimension. */
  datatype Weights = Weights(semantic: real, functional: real, structural: real, content: real, style: real)

  const DefaultWeights := Weights(0.60, 0.25, 0.10, 0.04, 0.01)

  predicate NonNegative(w: Weights) {
    w.semantic >= 0.0 && w.functional >= 0.0 && w.structural >= 0.0 && w.content >= 0.0 && w.style >= 0.0
  }

  datatype Comparer = Comparer(weights: Weights)

  /** `StateComparer(weights)`: the default weights unless weights are given. */
  function NewComparer(weights: Option<Weights>): (c: Comparer)
    ensures weights.Some? ==> c.weights == weights.value
    ensures weights.None? ==> c.weights == DefaultWeights && NonNegative(c.weights)
    ensures weights.None? ==>
      c.weights.semantic + c.weights.functional + c.weights.structural + c.weights.content + c.weights.style == 1.0
  {
    Comparer(weights.GetOr(DefaultWeights))
  }

  /** What the comparison methods accept: a fingerprint, or a state whose fingerprint is used. */
  datatype Subject = Fp(fp: Fingerprint) | State(state: UIState)

  function FingerprintOf(s: Subject): Fingerprint {
    match s
    case Fp(f) => f
    case State(st) => st.fingerprint
  }

  // ---------------------------------------------------------- weighted averages

  /** A `(score, weight)` pair. */
  datatype Term = Term(score: real, weight: real)

  /** `[t]` when the dimension has data on either side, `[]` otherwise. */
  function Opt(present: bool, t: Term): seq<Term> {
    if present then [t] else []
  }

  function WeightSum(ts: seq<Term>): real {
    if ts == [] then 0.0 else ts[0].weight + WeightSum(ts[1..])
  }

  function ScoreSum(ts: seq<Term>): real {
    if ts == [] then 0.0 else Contribution(ts[0]) + ScoreSum(ts[1..])
  }

  /** Scores in [0, 1] and positive weights. */
  predicate WellFormed(ts: seq<Term>) {
    forall i :: 0 <= i < |ts| ==> 0.0 <= ts[i].score <= 1.0 && ts[i].weight > 0.0
  }

  predicate AllPerfect(ts: seq<Term>) {
    forall i :: 0 <= i < |ts| ==> ts[i].score == 1.0
  }

  /** What one term adds to the weighted sum. */
  function Contribution(t: Term): real {
    t.score * t.weight
  }

  /** A score in [0, 1] contributes at most its weight, and all of it only when perfect or weightless. */
  lemma ContributionBounds(t: Term)
    requires 0.0 <= t.score <= 1.0 && t.weight >= 0.0
    ensures 0.0 <= Contribution(t) <= t.weight
    ensures Contribution(t) == t.weight <==> t.score == 1.0 || t.weight == 0.0
  {
    assert t.weight - Contribution(t) == (1.0 - t.score) * t.weight;
    if t.score < 1.0 && t.weight > 0.0 {
      assert (1.0 - t.score) * t.weight > 0.0;
    }
  }

  lemma WellFormedTail(ts: seq<Term>)
    requires WellFormed(ts) && ts != []
    ensures WellFormed(ts[1..])
  {
    forall i | 0 <= i < |ts[1..]| ensures 0.0 <= ts[1..][i].score <= 1.0 && ts[1..][i].weight > 0.0 {
      assert ts[1..][i] == ts[i + 1];
    }
  }

  /** The weighted sum never exceeds the total weight. */
  lemma {:induction false} SumBounds(ts: seq<Term>)
    requires WellFormed(ts)
    ensures 0.0 <= ScoreSum(ts) <= WeightSum(ts)
    ensures ts != [] ==> WeightSum(ts) > 0.0
  {
    if ts != [] {
      WellFormedTail(ts);
      ContributionBounds(ts[0]);
      SumBounds(ts[1..]);
    }
  }

  /** The weighted sum reaches the total weight exactly when every score is perfect. */
  lemma {:induction false} SumPerfect(ts: seq<Term>)
    requires WellFormed(ts)
    ensures ScoreSum(ts) == WeightSum(ts) <==> AllPerfect(ts)
  {
    if ts != [] {
      var t, rest := ts[0], ts[1..];
      WellFormedTail(ts);
      SumBounds(rest);
      SumPerfect(rest);
      ContributionBounds(t);
      if t.score < 1.0 {
        assert !AllPerfect(ts) by {
          assert ts[0].score < 1.0;
        }
      } else {
        assert ScoreSum(ts) == WeightSum(ts) <==> ScoreSum(rest) == WeightSum(rest);
        assert AllPerfect(ts) <==> AllPerfect(rest) by {
          if AllPerfect(ts) {
            forall i | 0 <= i < |rest| ensures rest[i].score == 1.0 {
              assert rest[i] == ts[i + 1];
            }
          }
          if AllPerfect(rest) {
            forall i | 0 <= i < |ts| ensures ts[i].score == 1.0 {
              if i > 0 {
                assert ts[i] == rest[i - 1];
              }
            }
          }
        }
      }
    }
  }

  /** Well-formed terms: their weighted average is a score in [0, 1], and 1.0 exactly when every score is perfect. */
  lemma AverageBounds(ts: seq<Term>)
    requires WellFormed(ts) && ts != []
    ensures WeightSum(ts) > 0.0
    ensures 0.0 <= ScoreSum(ts) / WeightSum(ts) <= 1.0
    ensures ScoreSum(ts) / WeightSum(ts) == 1.0 <==> AllPerfect(ts)
  {
    SumBounds(ts);
    SumPerfect(ts);
    DivInUnit(ScoreSum(ts), WeightSum(ts));
    var q := ScoreSum(ts) / WeightSum(ts);
    assert q * WeightSum(ts) == ScoreSum(ts);
  }

  /**
   * The `weighted_sum / total_weight` pattern the comparisons share, with the
   * value for no terms and the value for zero total weight as parameters.
   */
  function WeightedAverage(ts: seq<Term>, ifEmpty: real, ifWeightless: real): (r: real)
    ensures ts == [] ==> r == ifEmpty
    ensures ts != [] && WeightSum(ts) > 0.0 ==> r * WeightSum(ts) == ScoreSum(ts)
    ensures ts != [] && WeightSum(ts) <= 0.0 ==> r == ifWeightless
  {
    if ts == [] then ifEmpty
    else
      var total := WeightSum(ts);
      if total > 0.0 then
        assert ScoreSum(ts) / total * total == ScoreSum(ts);
        ScoreSum(ts) / total
      else ifWeightless
  }

  /** Well-formed non-empty terms always have positive weight, so the zero-weight fallback is never taken. */
  lemma WeightedAverageBounds(ts: seq<Term>, ifEmpty: real, ifWeightless: real)
    requires WellFormed(ts)
    ensures ts == [] ==> WeightedAverage(ts, ifEmpty, ifWeightless) == ifEmpty
    ensures ts != [] ==> 0.0 <= WeightedAverage(ts, ifEmpty, ifWeightless) <= 1.0
    ensures ts != [] ==> (WeightedAverage(ts, ifEmpty, ifWeightless) == 1.0 <==> AllPerfect(ts))
  {
    if ts != [] {
      AverageBounds(ts);
    }
  }

  predicate AllZero(ts: seq<Term>) {
    forall i :: 0 <= i < |ts| ==> ts[i].score == 0.0
  }

  /** Terms that all score 0 sum to 0. */
  lemma {:induction false} ZeroSum(ts: seq<Term>)
    ensures AllZero(ts) ==> ScoreSum(ts) == 0.0
  {
    if ts != [] {
      ZeroSum(ts[1..]);
      assert AllZero(ts) ==> AllZero(ts[1..]) by {
        if AllZero(ts) {
          forall i | 0 <= i < |ts[1..]| ensures ts[1..][i].score == 0.0 {
            assert ts[1..][i] == ts[i + 1];
          }
        }
      }
    }
  }

  lemma AllZeroConcat(a: seq<Term>, b: seq<Term>)
    ensures AllZero(a) && AllZero(b) ==> AllZero(a + b)
  {
    if AllZero(a) && AllZero(b) {
      forall i | 0 <= i < |a + b| ensures (a + b)[i].score == 0.0 {
        if i >= |a| {
          assert (a + b)[i] == b[i - |a|];
        }
      }
    }
  }

  lemma WellFormedOpt(present: bool, t: Term)
    requires 0.0 <= t.score <= 1.0 && t.weight > 0.0
    ensures WellFormed(Opt(present, t))
  {
  }

  lemma WellFormedConcat(a: seq<Term>, b: seq<Term>)
    requires WellFormed(a) && WellFormed(b)
    ensures WellFormed(a + b)
  {
    forall i | 0 <= i < |a + b| ensures 0.0 <= (a + b)[i].score <= 1.0 && (a + b)[i].weight > 0.0 {
      if i >= |a| {
        assert (a + b)[i] == b[i - |a|];
      }
    }
  }

  lemma AllPerfectConcat(a: seq<Term>, b: seq<Term>)
    ensures AllPerfect(a + b) <==> AllPerfect(a) && AllPerfect(b)
  {
    if AllPerfect(a + b) {
      forall i | 0 <= i < |a| ensures a[i].score == 1.0 {
        assert (a + b)[i] == a[i];
      }
      forall i | 0 <= i < |b| ensures b[i].score == 1.0 {
        assert (a + b)[|a| + i] == b[i];
      }
    }
    if AllPerfect(a) && AllPerfect(b) {
      forall i | 0 <= i < |a + b| ensures (a + b)[i].score == 1.0 {
        if i >= |a| {
          assert (a + b)[i] == b[i - |a|];
        }
      }
    }
  }

  // ------------------------------------------------------------ semantic score

  /**
   * `len(a & b) / max(len(a | b), 1)`: Jaccard whenever either set is
   * non-empty, and 0.0 (not Jaccard's 1.0) when both are empty.
   */
  function SetRatio<T>(a: set<T>, b: set<T>): (r: real)
    ensures a != {} || b != {} ==> r == Jaccard(a, b)
    ensures a == {} && b == {} ==> r == 0.0
  {
    if a != {} && b != {} then
      assert |a + b| > 0 by {
        var x :| x in a;
        assert x in a + b;
      }
      |a * b| as real / Max(|a + b| as real, 1.0)
    else
      assert a * b == {};
      |a * b| as real / Max(|a + b| as real, 1.0)
  }

  lemma SetRatioSymmetric<T>(a: set<T>, b: set<T>)
    ensures SetRatio(a, b) == SetRatio(b, a)
  {
    JaccardSymmetric(a, b);
  }

  /** A negative number times a positive one is negative. */
  lemma NegativeTimesPositive(x: real, m: real)
    requires m > 0.0
    ensures x < 0.0 ==> x * m < 0.0
  {
    if x < 0.0 {
      MulStrict(0.0, x, m);
    }
  }

  /** Counts a fifth of the larger apart, or one apart below five, are at least a whole scale apart. */
  lemma OutsideBand(hi: nat, lo: nat)
    requires lo < hi && (hi < 5 || 5 * (hi - lo) >= hi)
    ensures (hi - lo) as real / Max(hi as real * 0.2, 1.0) >= 1.0
  {
    var scale := Max(hi as real * 0.2, 1.0);
    var d := (hi - lo) as real;
    assert d >= scale by {
      if hi < 5 {
        assert scale == 1.0;
      } else {
        assert scale == hi as real * 0.2;
      }
    }
    var q := d / scale;
    assert q * scale == d;
    assert (q - 1.0) * scale == d - scale;
    NegativeTimesPositive(q - 1.0, scale);
  }

  /**
   * The interactive-count score: full marks only for equal counts, falling
   * linearly to 0 once the counts differ by a fifth of the larger count (or by
   * one, below five), and never below 0.
   */
  function CountScore(c1: nat, c2: nat): (r: real)
    ensures 0.0 <= r <= 1.0
    ensures r == 1.0 <==> c1 == c2
    ensures var m := if c1 < c2 then c2 else c1;
      c1 != c2 && (m < 5 || 5 * (m - (c1 + c2 - m)) >= m) ==> r == 0.0
  {
    var maxCount := if c1 < c2 then c2 else c1;
    var diff := Abs(c1 as real - c2 as real);
    var scale := Max(maxCount as real * 0.2, 1.0);
    assert c1 != c2 ==> diff / scale > 0.0;
    if c1 != c2 && (maxCount < 5 || 5 * (maxCount - (c1 + c2 - maxCount)) >= maxCount) then
      assert diff == (maxCount - (c1 + c2 - maxCount)) as real;
      OutsideBand(maxCount, c1 + c2 - maxCount);
      Max(0.0, 1.0 - diff / scale)
    else
      Max(0.0, 1.0 - diff / scale)
  }

  /** Eight against ten already scores nothing: a fifth of ten is the difference of two. */
  lemma CountEightOfTen()
    ensures CountScore(8, 10) == 0.0
  {
  }

  lemma CountScoreSymmetric(c1: nat, c2: nat)
    ensures CountScore(c1, c2) == CountScore(c2, c1)
  {
    assert Abs(c1 as real - c2 as real) == Abs(c2 as real - c1 as real);
  }

  /** Dividing by a fifth of `m` is dividing by `m`, then by 0.2. */
  lemma DivFifth(d: real, m: real)
    requires m > 0.0
    ensures d / (m * 0.2) == 5.0 * (d / m)
  {
    var q := d / m;
    assert q * m == d;
    assert (5.0 * q) * (m * 0.2) == d;
  }

  /** Multiplying by a positive number keeps a strict order. */
  lemma MulStrict(x: real, y: real, m: real)
    requires x > y && m > 0.0
    ensures x * m > y * m
  {
    assert x * m - y * m == (x - y) * m;
  }

  /** For counts of five or more the count score is `numeric_similarity` with a 20% tolerance. */
  lemma CountScoreIsNumeric(c1: nat, c2: nat)
    requires c1 >= 5 || c2 >= 5
    ensures CountScore(c1, c2) == NumericSimilarity(c1 as real, c2 as real, 0.2)
  {
    if c1 != c2 {
      var m := if c1 < c2 then c2 as real else c1 as real;
      var diff := Abs(c1 as real - c2 as real);
      assert Max(Abs(c1 as real), Abs(c2 as real)) == m;
      assert Max(m * 0.2, 1.0) == m * 0.2;
      DivFifth(diff, m);
      var rd := diff / m;
      assert rd / 0.2 == 5.0 * rd;
      if rd > 0.2 {
        assert rd * m == diff;
        MulStrict(rd, 0.2, m);
      }
    }
  }

  /** The ratio used for ARIA counts: `1 - |a - b| / max(max(a, b), 1)`. */
  function CountRatio(a: nat, b: nat): (r: real)
    ensures 0.0 <= r <= 1.0
    ensures r == 1.0 <==> a == b
    ensures a != b ==> r == 1.0 - Abs(a as real - b as real) / Max(Max(a as real, b as real), 1.0)
  {
    var m := if a < b then b else a;
    var diff := Abs(a as real - b as real);
    var scale := Max(m as real, 1.0);
    DivInUnit(diff, scale);
    assert a != b ==> diff / scale > 0.0;
    1.0 - diff / scale
  }

  lemma CountRatioSymmetric(a: nat, b: nat)
    ensures CountRatio(a, b) == CountRatio(b, a)
  {
    assert Abs(a as real - b as real) == Abs(b as real - a as real);
  }

  function Sum(xs: seq<real>): real {
    if xs == [] then 0.0 else xs[0] + Sum(xs[1..])
  }

  lemma {:induction false} SumInUnit(xs: seq<real>)
    requires forall i :: 0 <= i < |xs| ==> 0.0 <= xs[i] <= 1.0
    ensures 0.0 <= Sum(xs) <= |xs| as real
    ensures (forall i :: 0 <= i < |xs| ==> xs[i] == 1.0) ==> Sum(xs) == |xs| as real
  {
    if xs != [] {
      SumInUnit(xs[1..]);
    }
  }

  /** The count ratios for expanded elements, selected elements and disabled nodes, each only when either side has some. */
  function AriaScores(s1: AriaSummary, s2: AriaSummary): (r: seq<real>)
    ensures forall i :: 0 <= i < |r| ==> 0.0 <= r[i] <= 1.0
    ensures (|s1.expanded| == |s2.expanded| && |s1.selected| == |s2.selected| && s1.disabledCount == s2.disabledCount) ==>
      forall i :: 0 <= i < |r| ==> r[i] == 1.0
  {
    var e1, e2 := |s1.expanded|, |s2.expanded|;
    var l1, l2 := |s1.selected|, |s2.selected|;
    var d1, d2 := s1.disabledCount, s2.disabledCount;
    (if e1 != 0 || e2 != 0 then [CountRatio(e1, e2)] else []) +
    (if l1 != 0 || l2 != 0 then [CountRatio(l1, l2)] else []) +
    (if d1 != 0 || d2 != 0 then [CountRatio(d1, d2)] else [])
  }

  /**
   * `_compare_aria_states`: the mean of the count ratios, 1.0 when there are
   * none, and 1.0 when either summary is absent. Checked elements and current
   * indicators play no part.
   */
  function CompareAriaStates(s1: Option<AriaSummary>, s2: Option<AriaSummary>): (r: real)
    ensures 0.0 <= r <= 1.0
    ensures s1.None? || s2.None? ==> r == 1.0
    ensures (s1.Some? && s2.Some? && |s1.value.expanded| == |s2.value.expanded| && |s1.value.selected| == |s2.value.selected| &&
             s1.value.disabledCount == s2.value.disabledCount) ==> r == 1.0
  {
    if s1.None? || s2.None? then 1.0
    else
      var scores := AriaScores(s1.value, s2.value);
      if scores == [] then 1.0
      else
        SumInUnit(scores);
        DivInUnit(Sum(scores), |scores| as real);
        Sum(scores) / |scores| as real
  }

  lemma CompareAriaStatesSymmetric(s1: Option<AriaSummary>, s2: Option<AriaSummary>)
    ensures CompareAriaStates(s1, s2) == CompareAriaStates(s2, s1)
  {
    if s1.Some? && s2.Some? {
      var a, b := s1.value, s2.value;
      CountRatioSymmetric(|a.expanded|, |b.expanded|);
      CountRatioSymmetric(|a.selected|, |b.selected|);
      CountRatioSymmetric(a.disabledCount, b.disabledCount);
      assert AriaScores(a, b) == AriaScores(b, a);
    }
  }

  function HeadingScore(h1: seq<string>, h2: seq<string>): real {
    if h1 == h2 then 1.0 else 0.5
  }

  /**
   * The semantic terms: landmarks (0.40), interactive count (0.20), headings
   * (0.20) and key landmarks (0.10) when either side has any, then the ARIA
   * term (0.10), always.
   */
  function SemanticTerms(t1: A11ySummary, t2: A11ySummary): (r: seq<Term>)
    ensures WellFormed(r) && |r| >= 1
  {
    var l1, l2 := Elements(t1.landmarkRoles), Elements(t2.landmarkRoles);
    var c1, c2 := t1.interactiveCount, t2.interactiveCount;
    var h1, h2 := t1.headingHierarchy, t2.headingHierarchy;
    var k1, k2 := t1.keyLandmarks.Keys, t2.keyLandmarks.Keys;
    var sl, sc, sh, sk := SetRatio(l1, l2), CountScore(c1, c2), HeadingScore(h1, h2), SetRatio(k1, k2);
    var sa := CompareAriaStates(t1.ariaStates, t2.ariaStates);
    assert 0.0 <= sl <= 1.0 && 0.0 <= sk <= 1.0 && 0.0 <= sh <= 1.0;
    var landmarks := Opt(l1 != {} || l2 != {}, Term(sl, 0.40));
    var count := Opt(c1 != 0 || c2 != 0, Term(sc, 0.20));
    var headings := Opt(h1 != [] || h2 != [], Term(sh, 0.20));
    var keys := Opt(k1 != {} || k2 != {}, Term(sk, 0.10));
    var aria := [Term(sa, 0.10)];
    WellFormedOpt(l1 != {} || l2 != {}, Term(sl, 0.40));
    WellFormedOpt(c1 != 0 || c2 != 0, Term(sc, 0.20));
    WellFormedOpt(h1 != [] || h2 != [], Term(sh, 0.20));
    WellFormedOpt(k1 != {} || k2 != {}, Term(sk, 0.10));
    WellFormedOpt(true, Term(sa, 0.10));
    WellFormedConcat(landmarks, count);
    WellFormedConcat(landmarks + count, headings);
    WellFormedConcat(landmarks + count + headings, keys);
    WellFormedConcat(landmarks + count + headings + keys, aria);
    landmarks + count + headings + keys + aria
  }

  /** `_compare_a11y_trees`: 0.0 when either summary is absent. */
  function CompareA11yTrees(t1: Option<A11ySummary>, t2: Option<A11ySummary>): (r: real)
    ensures 0.0 <= r <= 1.0
    ensures t1.None? || t2.None? ==> r == 0.0
    ensures t1.Some? && t2.Some? ==> (r == 1.0 <==> AllPerfect(SemanticTerms(t1.value, t2.value)))
  {
    if t1.None? || t2.None? then 0.0
    else
      WeightedAverageBounds(SemanticTerms(t1.value, t2.value), 0.5, 0.0);
      WeightedAverage(SemanticTerms(t1.value, t2.value), 0.5, 0.0)
  }

  /**
   * The ARIA term is always present, so neither the neutral 0.5 for "no data"
   * nor the zero-weight fallback is ever returned: the score is always the
   * true weighted average.
   */
  lemma SemanticNeutralUnreachable(t1: A11ySummary, t2: A11ySummary)
    ensures WeightSum(SemanticTerms(t1, t2)) > 0.0
    ensures CompareA11yTrees(Some(t1), Some(t2)) == ScoreSum(SemanticTerms(t1, t2)) / WeightSum(SemanticTerms(t1, t2))
  {
    SumBounds(SemanticTerms(t1, t2));
  }

  lemma SemanticTermsSymmetric(t1: A11ySummary, t2: A11ySummary)
    ensures SemanticTerms(t1, t2) == SemanticTerms(t2, t1)
  {
    SetRatioSymmetric(Elements(t1.landmarkRoles), Elements(t2.landmarkRoles));
    SetRatioSymmetric(t1.keyLandmarks.Keys, t2.keyLandmarks.Keys);
    CountScoreSymmetric(t1.interactiveCount, t2.interactiveCount);
    CompareAriaStatesSymmetric(t1.ariaStates, t2.ariaStates);
  }

  lemma CompareA11yTreesSymmetric(t1: Option<A11ySummary>, t2: Option<A11ySummary>)
    ensures CompareA11yTrees(t1, t2) == CompareA11yTrees(t2, t1)
  {
    if t1.Some? && t2.Some? {
      SemanticTermsSymmetric(t1.value, t2.value);
    }
  }

  /** A present summary is fully similar to itself. */
  lemma SemanticSelfSimilar(t: A11ySummary)
    ensures CompareA11yTrees(Some(t), Some(t)) == 1.0
  {
    var l, k := Elements(t.landmarkRoles), t.keyLandmarks.Keys;
    var c := t.interactiveCount;
    var landmarks := Opt(l != {}, Term(SetRatio(l, l), 0.40));
    var count := Opt(c != 0, Term(CountScore(c, c), 0.20));
    var headings := Opt(t.headingHierarchy != [], Term(HeadingScore(t.headingHierarchy, t.headingHierarchy), 0.20));
    var keys := Opt(k != {}, Term(SetRatio(k, k), 0.10));
    var aria := [Term(CompareAriaStates(t.ariaStates, t.ariaStates), 0.10)];
    assert SemanticTerms(t, t) == landmarks + count + headings + keys + aria;
    AllPerfectConcat(landmarks, count);
    AllPerfectConcat(landmarks + count, headings);
    AllPerfectConcat(landmarks + count + headings, keys);
    AllPerfectConcat(landmarks + count + headings + keys, aria);
  }

  // --------------------------------------------------------- functional score

  /** The set of element names. */
  function NameSet(l: seq<Element>): set<string> {
    set e | e in l :: e.name
  }

  lemma NameSetEmpty(l: seq<Element>)
    ensures NameSet(l) == {} <==> l == []
  {
    if l != [] {
      assert l[0].name in NameSet(l);
    }
  }

  /** `_compare_element_lists`: Jaccard over the element names. */
  function CompareElementLists(l1: seq<Element>, l2: seq<Element>): (r: real)
    ensures r == Jaccard(NameSet(l1), NameSet(l2))
  {
    NameSetEmpty(l1);
    NameSetEmpty(l2);
    if l1 == [] && l2 == [] then 1.0
    else if l1 == [] || l2 == [] then 0.0
    else
      var s1, s2 := NameSet(l1), NameSet(l2);
      var union := |s1 + s2|;
      if union == 0 then 1.0 else |s1 * s2| as real / union as real
  }

  lemma CompareElementListsSymmetric(l1: seq<Element>, l2: seq<Element>)
    ensures CompareElementLists(l1, l2) == CompareElementLists(l2, l1)
  {
    JaccardSymmetric(NameSet(l1), NameSet(l2));
  }

  /** Buttons and links weigh 0.40, inputs 0.20, each only when either side has some. */
  function ActionTerms(a1: Actionables, a2: Actionables): (r: seq<Term>)
    ensures WellFormed(r)
    ensures r == [] <==> a1.buttons == [] && a2.buttons == [] && a1.links == [] && a2.links == [] && a1.inputs == [] && a2.inputs == []
  {
    var b := Term(CompareElementLists(a1.buttons, a2.buttons), 0.40);
    var l := Term(CompareElementLists(a1.links, a2.links), 0.40);
    var i := Term(CompareElementLists(a1.inputs, a2.inputs), 0.20);
    var bp, lp, ip := a1.buttons != [] || a2.buttons != [], a1.links != [] || a2.links != [], a1.inputs != [] || a2.inputs != [];
    WellFormedOpt(bp, b);
    WellFormedOpt(lp, l);
    WellFormedOpt(ip, i);
    WellFormedConcat(Opt(bp, b), Opt(lp, l));
    WellFormedConcat(Opt(bp, b) + Opt(lp, l), Opt(ip, i));
    Opt(bp, b) + Opt(lp, l) + Opt(ip, i)
  }

  /** `_compare_actionable_elements`: 0.0 when either record is absent, 0.5 when no list has elements. */
  function CompareActionables(a1: Option<Actionables>, a2: Option<Actionables>): (r: real)
    ensures 0.0 <= r <= 1.0
    ensures a1.None? || a2.None? ==> r == 0.0
    ensures a1.Some? && a2.Some? && ActionTerms(a1.value, a2.value) == [] ==> r == 0.5
    ensures a1.Some? && a2.Some? && ActionTerms(a1.value, a2.value) != [] ==>
      (r == 1.0 <==> AllPerfect(ActionTerms(a1.value, a2.value)))
  {
    if a1.None? || a2.None? then 0.0
    else
      WeightedAverageBounds(ActionTerms(a1.value, a2.value), 0.5, 0.0);
      WeightedAverage(ActionTerms(a1.value, a2.value), 0.5, 0.0)
  }

  lemma CompareActionablesSymmetric(a1: Option<Actionables>, a2: Option<Actionables>)
    ensures CompareActionables(a1, a2) == CompareActionables(a2, a1)
  {
    if a1.Some? && a2.Some? {
      var x, y := a1.value, a2.value;
      CompareElementListsSymmetric(x.buttons, y.buttons);
      CompareElementListsSymmetric(x.links, y.links);
      CompareElementListsSymmetric(x.inputs, y.inputs);
      var b := Term(CompareElementLists(x.buttons, y.buttons), 0.40);
      var l := Term(CompareElementLists(x.links, y.links), 0.40);
      var i := Term(CompareElementLists(x.inputs, y.inputs), 0.20);
      var bp, lp, ip := x.buttons != [] || y.buttons != [], x.links != [] || y.links != [], x.inputs != [] || y.inputs != [];
      assert ActionTerms(x, y) == Opt(bp, b) + Opt(lp, l) + Opt(ip, i);
      assert ActionTerms(y, x) == Opt(bp, b) + Opt(lp, l) + Opt(ip, i);
    }
  }

  /** A present record is fully similar to itself, unless all its lists are empty: then it scores the neutral 0.5. */
  lemma FunctionalSelfSimilar(a: Actionables)
    ensures CompareActionables(Some(a), Some(a)) == if a.buttons == [] && a.links == [] && a.inputs == [] then 0.5 else 1.0
  {
    var b := Opt(a.buttons != [], Term(CompareElementLists(a.buttons, a.buttons), 0.40));
    var l := Opt(a.links != [], Term(CompareElementLists(a.links, a.links), 0.40));
    var i := Opt(a.inputs != [], Term(CompareElementLists(a.inputs, a.inputs), 0.20));
    assert ActionTerms(a, a) == b + l + i;
    AllPerfectConcat(b, l);
    AllPerfectConcat(b + l, i);
  }

  // ---------------------------------------------------------- structural score

  /** The number of positions where two lists agree (`zip` stops at the shorter). */
  function PositionalMatches(p1: seq<string>, p2: seq<string>): (r: nat)
    ensures r <= |p1| && r <= |p2|
    ensures r == |p1| == |p2| ==> p1 == p2
  {
    if p1 == [] || p2 == [] then 0
    else (if p1[0] == p2[0] then 1 else 0) + PositionalMatches(p1[1..], p2[1..])
  }

  lemma {:induction false} PositionalMatchesSymmetric(p1: seq<string>, p2: seq<string>)
    ensures PositionalMatches(p1, p2) == PositionalMatches(p2, p1)
  {
    if p1 != [] && p2 != [] {
      PositionalMatchesSymmetric(p1[1..], p2[1..]);
    }
  }

  /** The positions, below both lengths, where two lists hold the same item. */
  function AgreeingPositions(p1: seq<string>, p2: seq<string>): set<nat> {
    set i: nat | i < |p1| && i < |p2| && p1[i] == p2[i]
  }

  /** Every member of a set of positions moved one place on. */
  function Shift(t: set<nat>): set<nat> {
    set i | i in t :: i + 1
  }

  lemma {:induction false} ShiftSize(t: set<nat>)
    ensures |Shift(t)| == |t|
    decreases |t|
  {
    if t == {} {
      assert Shift(t) == {};
    } else {
      var x :| x in t;
      ShiftSize(t - {x});
      assert Shift(t) == Shift(t - {x}) + {x + 1} by {
        forall i | i in Shift(t) ensures i in Shift(t - {x}) + {x + 1} {
          var k :| k in t && i == k + 1;
          if k != x {
            assert k in t - {x};
          }
        }
      }
      assert x + 1 !in Shift(t - {x});
    }
  }

  /** The agreeing positions of two non-empty lists: the head, if it agrees, and the tails' positions moved on. */
  lemma AgreeingCons(p1: seq<string>, p2: seq<string>)
    requires p1 != [] && p2 != []
    ensures AgreeingPositions(p1, p2) ==
      (if p1[0] == p2[0] then {0} else {}) + Shift(AgreeingPositions(p1[1..], p2[1..]))
  {
    var t := AgreeingPositions(p1[1..], p2[1..]);
    forall i: nat | i in AgreeingPositions(p1, p2) && i > 0 ensures i in Shift(t) {
      assert (i - 1) in t;
    }
    forall i | i in Shift(t) ensures i in AgreeingPositions(p1, p2) {
      var k :| k in t && i == k + 1;
      assert p1[i] == p1[1..][k] && p2[i] == p2[1..][k];
    }
  }

  /** `PositionalMatches` counts exactly the agreeing positions. */
  lemma {:induction false} PositionalMatchesCounts(p1: seq<string>, p2: seq<string>)
    ensures PositionalMatches(p1, p2) == |AgreeingPositions(p1, p2)|
  {
    if p1 == [] || p2 == [] {
      assert AgreeingPositions(p1, p2) == {};
    } else {
      var t := AgreeingPositions(p1[1..], p2[1..]);
      PositionalMatchesCounts(p1[1..], p2[1..]);
      ShiftSize(t);
      AgreeingCons(p1, p2);
      var h: set<nat> := if p1[0] == p2[0] then {0} else {};
      assert 0 !in Shift(t);
      assert |h + Shift(t)| == |h| + |Shift(t)|;
    }
  }

  /** The share of positions two non-empty segment lists agree on, out of the larger count. */
  function SegmentShare(p1: seq<string>, p2: seq<string>): real
    requires p1 != [] && p2 != []
  {
    PositionalMatches(p1, p2) as real / (if |p1| < |p2| then |p2| else |p1|) as real
  }

  /**
   * `_compare_url_patterns`: 1.0 for equal patterns, 0.0 when exactly one is
   * empty, otherwise the positional matches of the `/`-segments over the
   * larger segment count, which is below 1.0.
   */
  function CompareUrlPatterns(u1: string, u2: string): (r: real)
    ensures 0.0 <= r <= 1.0
    ensures r == 1.0 <==> u1 == u2
    ensures (u1 == "") != (u2 == "") ==> r == 0.0
    ensures u1 != "" && u2 != "" && u1 != u2 ==> r == SegmentShare(Split(u1, '/'), Split(u2, '/'))
  {
    if u1 == "" && u2 == "" then 1.0
    else if u1 == "" || u2 == "" then 0.0
    else if u1 == u2 then 1.0
    else
      var p1, p2 := Split(u1, '/'), Split(u2, '/');
      var matches := PositionalMatches(p1, p2);
      var maxParts := if |p1| < |p2| then |p2| else |p1|;
      assert matches < maxParts by {
        JoinSplit(u1, '/');
        JoinSplit(u2, '/');
      }
      DivInUnit(matches as real, maxParts as real);
      SegmentShare(p1, p2)
  }

  /**
   * Two different non-empty patterns score the share of segment positions on
   * which they agree, out of the larger segment count.
   */
  lemma CompareUrlPatternsAgreeing(u1: string, u2: string)
    requires u1 != "" && u2 != "" && u1 != u2
    ensures var p1, p2 := Split(u1, '/'), Split(u2, '/');
      CompareUrlPatterns(u1, u2) == |AgreeingPositions(p1, p2)| as real / (if |p1| < |p2| then |p2| else |p1|) as real
  {
    var p1, p2 := Split(u1, '/'), Split(u2, '/');
    PositionalMatchesCounts(p1, p2);
    assert CompareUrlPatterns(u1, u2) == SegmentShare(p1, p2);
  }

  lemma CompareUrlPatternsSymmetric(u1: string, u2: string)
    ensures CompareUrlPatterns(u1, u2) == CompareUrlPatterns(u2, u1)
  {
    PositionalMatchesSymmetric(Split(u1, '/'), Split(u2, '/'));
  }

  /** `Split` of two segments joined by a slash gives the two segments back. */
  lemma SplitTwo(a: string, b: string)
    requires '/' !in a && '/' !in b
    ensures Split(a + "/" + b, '/') == [a, b]
  {
    SplitJoin([a, b], '/');
    assert [a, b][1..] == [b];
    assert Join([a, b], "/") == a + "/" + b;
  }

  /** Two segments of which only the first agrees match in half the positions. */
  lemma HalfOfTwo(a: string, b: string, c: string)
    requires '/' !in a && '/' !in b && '/' !in c && b != c
    ensures CompareUrlPatterns(a + "/" + b, a + "/" + c) == 0.5
  {
    var u1, u2 := a + "/" + b, a + "/" + c;
    SplitTwo(a, b);
    SplitTwo(a, c);
    assert u1 != u2 by {
      assert u1[|a| + 1..] == b && u2[|a| + 1..] == c;
    }
    assert u1 != "" && u2 != "";
    assert PositionalMatches([a, b], [a, c]) == 1 by {
      assert [a, b][1..] == [b] && [a, c][1..] == [c];
      assert PositionalMatches([b], [c]) == 0;
    }
  }

  /** `"admin/config"` against `"admin/users"`: one of two segments in common, half marks. */
  lemma UrlHalfMatch()
    ensures CompareUrlPatterns("admin/config", "admin/users") == 0.5
  {
    assert "admin/config" == "admin" + "/" + "config";
    assert "admin/users" == "admin" + "/" + "users";
    HalfOfTwo("admin", "config", "users");
  }

  // ------------------------------------------------------------- content score

  function ContentTerms(title1: string, title2: string, heading1: string, heading2: string): (r: seq<Term>)
    ensures WellFormed(r)
  {
    Opt(title1 != "" || title2 != "", Term(if title1 == title2 then 1.0 else 0.0, 0.70)) +
    Opt(heading1 != "" || heading2 != "", Term(if heading1 == heading2 then 1.0 else 0.0, 0.30))
  }

  /** `_compare_content`: title (0.70) and main heading (0.30) exact matches, 1.0 when all are empty. */
  function CompareContent(title1: string, title2: string, heading1: string, heading2: string): (r: real)
    ensures 0.0 <= r <= 1.0
    ensures r == 1.0 <==> title1 == title2 && heading1 == heading2
    ensures title1 != title2 && (heading1 != heading2 || heading1 == "") ==> r == 0.0
    ensures heading1 != heading2 && (title1 != title2 || title1 == "") ==> r == 0.0
  {
    var ts := ContentTerms(title1, title2, heading1, heading2);
    ContentPerfect(title1, title2, heading1, heading2);
    ContentZero(title1, title2, heading1, heading2);
    WeightedAverageBounds(ts, 1.0, 1.0);
    WeightedAverage(ts, 1.0, 1.0)
  }

  /** The content terms are all perfect exactly when both titles and both headings agree. */
  lemma ContentPerfect(title1: string, title2: string, heading1: string, heading2: string)
    ensures var ts := ContentTerms(title1, title2, heading1, heading2);
      AllPerfect(ts) <==> title1 == title2 && heading1 == heading2
  {
    var t := Opt(title1 != "" || title2 != "", Term(if title1 == title2 then 1.0 else 0.0, 0.70));
    var h := Opt(heading1 != "" || heading2 != "", Term(if heading1 == heading2 then 1.0 else 0.0, 0.30));
    assert ContentTerms(title1, title2, heading1, heading2) == t + h;
    AllPerfectConcat(t, h);
    assert title1 != title2 ==> t[0].score == 0.0;
    assert heading1 != heading2 ==> h[0].score == 0.0;
  }

  /** A differing title with no matching heading to offset it, or the reverse, averages to 0. */
  lemma ContentZero(title1: string, title2: string, heading1: string, heading2: string)
    ensures var ts := ContentTerms(title1, title2, heading1, heading2);
      (title1 != title2 && (heading1 != heading2 || heading1 == "")) ||
      (heading1 != heading2 && (title1 != title2 || title1 == "")) ==>
      ts != [] && ScoreSum(ts) == 0.0 && WeightedAverage(ts, 1.0, 1.0) == 0.0
  {
    var ts := ContentTerms(title1, title2, heading1, heading2);
    var t := Opt(title1 != "" || title2 != "", Term(if title1 == title2 then 1.0 else 0.0, 0.70));
    var h := Opt(heading1 != "" || heading2 != "", Term(if heading1 == heading2 then 1.0 else 0.0, 0.30));
    assert ts == t + h;
    if (title1 != title2 && (heading1 != heading2 || heading1 == "")) ||
       (heading1 != heading2 && (title1 != title2 || title1 == "")) {
      AllZeroConcat(t, h);
      ZeroSum(ts);
      assert ts != [];
      SumBounds(ts);
    }
  }

  // -------------------------------------------------------------- similarity

  /** The four scored dimensions of a pair of fingerprints; the style dimension is never scored. */
  datatype Scores = Scores(semantic: real, functional: real, structural: real, content: real)

  predicate InUnit(s: Scores) {
    0.0 <= s.semantic <= 1.0 && 0.0 <= s.functional <= 1.0 && 0.0 <= s.structural <= 1.0 && 0.0 <= s.content <= 1.0
  }

  function DimensionScores(f1: Fingerprint, f2: Fingerprint): (s: Scores)
    ensures InUnit(s)
  {
    Scores(CompareA11yTrees(f1.a11y, f2.a11y),
           CompareActionables(f1.actionables, f2.actionables),
           CompareUrlPatterns(f1.urlPattern, f2.urlPattern),
           CompareContent(f1.title, f2.title, f1.mainHeading, f2.mainHeading))
  }

  lemma DimensionScoresSymmetric(f1: Fingerprint, f2: Fingerprint)
    ensures DimensionScores(f1, f2) == DimensionScores(f2, f1)
  {
    CompareA11yTreesSymmetric(f1.a11y, f2.a11y);
    CompareActionablesSymmetric(f1.actionables, f2.actionables);
    CompareUrlPatternsSymmetric(f1.urlPattern, f2.urlPattern);
  }

  /** The sum of each score times its weight (the style weight is unused). */
  function Weighted(s: Scores, w: Weights): real {
    Contribution(Term(s.semantic, w.semantic)) + Contribution(Term(s.functional, w.functional)) +
    Contribution(Term(s.structural, w.structural)) + Contribution(Term(s.content, w.content))
  }

  lemma WeightedBounds(s: Scores, w: Weights)
    requires InUnit(s) && NonNegative(w)
    ensures 0.0 <= Weighted(s, w) <= w.semantic + w.functional + w.structural + w.content
  {
    ContributionBounds(Term(s.semantic, w.semantic));
    ContributionBounds(Term(s.functional, w.functional));
    ContributionBounds(Term(s.structural, w.structural));
    ContributionBounds(Term(s.content, w.content));
  }

  /**
   * `calculate_similarity`: the weighted sum of the four scored dimensions.
   * With non-negative weights it lies between 0 and the sum of those four
   * weights, so at most 0.99 with the default weights.
   */
  function CalculateSimilarity(c: Comparer, a: Subject, b: Subject): (r: real)
    ensures NonNegative(c.weights) ==>
      0.0 <= r <= c.weights.semantic + c.weights.functional + c.weights.structural + c.weights.content
    ensures c.weights == DefaultWeights ==> 0.0 <= r <= 0.99
  {
    var s := DimensionScores(FingerprintOf(a), FingerprintOf(b));
    if NonNegative(c.weights) then
      WeightedBounds(s, c.weights);
      Weighted(s, c.weights)
    else
      Weighted(s, c.weights)
  }

  lemma SimilaritySymmetric(c: Comparer, a: Subject, b: Subject)
    ensures CalculateSimilarity(c, a, b) == CalculateSimilarity(c, b, a)
  {
    DimensionScoresSymmetric(FingerprintOf(a), FingerprintOf(b));
  }

  /** `is_match`: similarity at least the threshold, 0.80 unless one is given. */
  function IsMatch(c: Comparer, a: Subject, b: Subject, threshold: Option<real>): (r: bool)
    ensures threshold.None? ==> (r <==> CalculateSimilarity(c, a, b) >= MatchThreshold)
    ensures threshold.Some? ==> (r <==> CalculateSimilarity(c, a, b) >= threshold.value)
  {
    CalculateSimilarity(c, a, b) >= threshold.GetOr(MatchThreshold)
  }

  /**
   * With the default weights and threshold, a match needs the semantic
   * summary and the actionable elements on both sides: without the first the
   * score is at most 0.39, without the second at most 0.74.
   */
  lemma DefaultMatchNeedsSummaries(a: Subject, b: Subject)
    requires IsMatch(NewComparer(None), a, b, None)
    ensures FingerprintOf(a).a11y.Some? && FingerprintOf(b).a11y.Some?
    ensures FingerprintOf(a).actionables.Some? && FingerprintOf(b).actionables.Some?
  {
    var fa, fb := FingerprintOf(a), FingerprintOf(b);
    var s := DimensionScores(fa, fb);
    var w := DefaultWeights;
    assert CalculateSimilarity(NewComparer(None), a, b) == Weighted(s, w);
    LowScores(s);
  }

  /** With the default weights, a zero semantic score caps the similarity at 0.39 and a zero functional score at 0.74. */
  lemma LowScores(s: Scores)
    requires InUnit(s)
    ensures s.semantic == 0.0 ==> Weighted(s, DefaultWeights) <= 0.39
    ensures s.functional == 0.0 ==> Weighted(s, DefaultWeights) <= 0.74
  {
    var w := DefaultWeights;
    ContributionBounds(Term(s.semantic, w.semantic));
    ContributionBounds(Term(s.functional, w.functional));
    ContributionBounds(Term(s.structural, w.structural));
    ContributionBounds(Term(s.content, w.content));
  }

  /**
   * A fingerprint with no accessibility summary and no actionables, compared
   * with itself, scores 0.14 whatever its pattern, parameters, title and
   * heading: the full structural and content weights and nothing else, so it
   * is no match.
   */
  lemma TitleAndUrlOnlySelf(f: Fingerprint)
    requires f.a11y.None? && f.actionables.None?
    ensures CalculateSimilarity(NewComparer(None), Fp(f), Fp(f)) == 0.14
    ensures !IsMatch(NewComparer(None), Fp(f), Fp(f), None)
  {
    var s := DimensionScores(f, f);
    assert s.semantic == 0.0 && s.functional == 0.0;
    assert s.structural == 1.0 && s.content == 1.0;
    assert Weighted(s, DefaultWeights) == 0.14;
  }

  /** A different pattern (one of two segments shared) and a different title: 0.05. */
  lemma TitleAndUrlOnlyOther()
    ensures var f := Fingerprint("/admin", map[], "Admin Page", "", None, None);
            var g := Fingerprint("/login", map[], "Login Page", "", None, None);
            CalculateSimilarity(NewComparer(None), Fp(f), Fp(g)) == 0.05
  {
    var f := Fingerprint("/admin", map[], "Admin Page", "", None, None);
    var g := Fingerprint("/login", map[], "Login Page", "", None, None);
    AdminAgainstLogin();
    assert DimensionScores(f, g) == Scores(0.0, 0.0, 0.5, 0.0);
    assert Weighted(Scores(0.0, 0.0, 0.5, 0.0), DefaultWeights) == 0.05;
  }

  /** `/admin` and `/login` share their empty first segment; the titles differ. */
  lemma AdminAgainstLogin()
    ensures CompareUrlPatterns("/admin", "/login") == 0.5
    ensures CompareContent("Admin Page", "Login Page", "", "") == 0.0
  {
    assert "/admin" == "" + "/" + "admin";
    assert "/login" == "" + "/" + "login";
    HalfOfTwo("", "admin", "login");
    assert "Admin Page"[0] != "Login Page"[0];
  }

  // ------------------------------------------------------------ best match

  /** The loop of `find_matching_state` over a list of scores, from position `i`. */
  function Scan(scores: seq<real>, threshold: real, i: nat, best: Option<nat>, bestScore: real): (Option<nat>, real)
    requires i <= |scores|
    decreases |scores| - i
  {
    if i == |scores| then (best, bestScore)
    else if scores[i] >= threshold && scores[i] > bestScore then Scan(scores, threshold, i + 1, Some(i), scores[i])
    else Scan(scores, threshold, i + 1, best, bestScore)
  }

  /** No score both reaches the threshold and is positive. */
  predicate NoneQualifies(scores: seq<real>, threshold: real) {
    forall j :: 0 <= j < |scores| ==> scores[j] < threshold || scores[j] <= 0.0
  }

  /** Position `k` holds the first highest score, and that score qualifies. */
  predicate FirstBest(scores: seq<real>, threshold: real, k: nat) {
    k < |scores| && scores[k] >= threshold && scores[k] > 0.0 &&
    (forall j :: 0 <= j < |scores| ==> scores[j] <= scores[k]) &&
    (forall j :: 0 <= j < k ==> scores[j] < scores[k])
  }

  lemma FirstBestUnique(scores: seq<real>, t1: real, t2: real, k1: nat, k2: nat)
    requires FirstBest(scores, t1, k1) && FirstBest(scores, t2, k2)
    ensures k1 == k2
  {
    assert scores[k1] <= scores[k2] && scores[k2] <= scores[k1];
  }

  /** What the scan has established after position `i`. */
  predicate ScanInvariant(scores: seq<real>, threshold: real, i: nat, best: Option<nat>, bestScore: real)
    requires i <= |scores|
  {
    (best.None? ==> bestScore == 0.0 && NoneQualifies(scores[..i], threshold)) &&
    (best.Some? ==> best.value < i && scores[best.value] == bestScore && FirstBest(scores[..i], threshold, best.value))
  }

  lemma {:induction false} ScanCorrect(scores: seq<real>, threshold: real, i: nat, best: Option<nat>, bestScore: real)
    requires i <= |scores| && ScanInvariant(scores, threshold, i, best, bestScore)
    ensures ScanInvariant(scores, threshold, |scores|, Scan(scores, threshold, i, best, bestScore).0, Scan(scores, threshold, i, best, bestScore).1)
    decreases |scores| - i
  {
    if i < |scores| {
      var pre, next := scores[..i], scores[..i + 1];
      assert next == pre + [scores[i]];
      if scores[i] >= threshold && scores[i] > bestScore {
        assert FirstBest(next, threshold, i) by {
          forall j | 0 <= j < i ensures next[j] < next[i] {
            assert next[j] == pre[j];
            if best.Some? {
              assert pre[j] <= pre[best.value] == bestScore;
            }
          }
        }
        ScanCorrect(scores, threshold, i + 1, Some(i), scores[i]);
      } else {
        if best.Some? {
          assert FirstBest(next, threshold, best.value) by {
            assert forall j :: 0 <= j < i ==> next[j] == pre[j];
          }
        }
        ScanCorrect(scores, threshold, i + 1, best, bestScore);
      }
    } else {
      assert scores[..i] == scores;
    }
  }

  /** The position of the first highest qualifying score, if any. */
  function BestIndex(scores: seq<real>, threshold: real): (r: Option<nat>)
    ensures r.None? <==> NoneQualifies(scores, threshold)
    ensures r.Some? ==> FirstBest(scores, threshold, r.value)
  {
    ScanCorrect(scores, threshold, 0, None, 0.0);
    var r := Scan(scores, threshold, 0, None, 0.0);
    assert scores[..|scores|] == scores;
    assert r.0.Some? ==> !NoneQualifies(scores, threshold) by {
      if r.0.Some? {
        var k := r.0.value;
        assert scores[k] >= threshold && scores[k] > 0.0;
      }
    }
    r.0
  }

  /** The score of every known state against the candidate, in list order. */
  function ScoresAgainst(c: Comparer, candidate: Fingerprint, states: seq<UIState>): (r: seq<real>)
    ensures |r| == |states|
    ensures forall i :: 0 <= i < |states| ==> r[i] == CalculateSimilarity(c, Fp(candidate), Fp(states[i].fingerprint))
  {
    seq(|states|, i requires 0 <= i < |states| => CalculateSimilarity(c, Fp(candidate), Fp(states[i].fingerprint)))
  }

  /**
   * `find_matching_state`: the first state with the highest score, provided
   * that score reaches the threshold and is positive; otherwise no state and 0.0.
   */
  function FindMatchingState(c: Comparer, candidate: Fingerprint, states: seq<UIState>, threshold: Option<real>): (r: (Option<UIState>, real))
    ensures var s, t := ScoresAgainst(c, candidate, states), threshold.GetOr(MatchThreshold);
      (r.0.None? <==> NoneQualifies(s, t)) &&
      (r.0.None? ==> r.1 == 0.0) &&
      (r.0.Some? ==> exists k: nat :: FirstBest(s, t, k) && states[k] == r.0.value && s[k] == r.1)
  {
    var s := ScoresAgainst(c, candidate, states);
    var t := threshold.GetOr(MatchThreshold);
    match BestIndex(s, t)
    case None => (None, 0.0)
    case Some(k) => (Some(states[k]), s[k])
  }

  /** Lowering the threshold keeps a match: the same state with the same score. */
  lemma ThresholdMonotone(c: Comparer, candidate: Fingerprint, states: seq<UIState>, t1: real, t2: real)
    requires t2 <= t1
    requires FindMatchingState(c, candidate, states, Some(t1)).0.Some?
    ensures FindMatchingState(c, candidate, states, Some(t2)) == FindMatchingState(c, candidate, states, Some(t1))
  {
    var s := ScoresAgainst(c, candidate, states);
    var k1 := BestIndex(s, t1);
    var k2 := BestIndex(s, t2);
    assert k1.Some?;
    assert FirstBest(s, t2, k1.value);
    assert k2.Some?;
    FirstBestUnique(s, t1, t2, k1.value, k2.value);
  }
}
