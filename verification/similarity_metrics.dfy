/**
 * The general-purpose similarity metrics: Jaccard over sets, relative numeric
 * closeness with a tolerance, list similarity and the guard cases of text
 * similarity. Scores are exact reals.
 */
module SimilarityMetrics {

  /** The set of elements of a list (`set(lst)`). */
  function Elements<T>(s: seq<T>): set<T> {
    set x | x in s
  }

  function Abs(x: real): real {
    if x < 0.0 then -x else x
  }

  function Max(x: real, y: real): real {
    if x < y then y else x
  }

  /** A subset as large as its superset is the superset. */
  lemma {:induction false} SubsetSameSize<T>(a: set<T>, b: set<T>)
    requires a <= b && |a| == |b|
    ensures a == b
    decreases |b|
  {
    if b != {} {
      var x :| x in b;
      assert x in a by {
        if x !in a {
          SubsetSmaller(a, b - {x});
          assert false;
        }
      }
      SubsetSameSize(a - {x}, b - {x});
      assert a == (a - {x}) + {x} && b == (b - {x}) + {x};
    }
  }

  lemma {:induction false} SubsetSmaller<T>(a: set<T>, b: set<T>)
    requires a <= b
    ensures |a| <= |b|
    decreases |b|
  {
    if a != {} {
      var x :| x in a;
      SubsetSmaller(a - {x}, b - {x});
    }
  }

  /** A ratio of a non-negative number to one at least as large lies in [0, 1]. */
  lemma DivInUnit(a: real, b: real)
    requires 0.0 <= a <= b && b > 0.0
    ensures 0.0 <= a / b <= 1.0
  {
    assert a / b * b == a;
  }

  /** A ratio of a non-negative number to a larger one is below 1. */
  lemma DivBelowOne(a: real, b: real)
    requires 0.0 <= a < b
    ensures 0.0 <= a / b < 1.0
  {
    assert a / b * b == a;
  }

  /** `jaccard_similarity` */
  function Jaccard<T>(a: set<T>, b: set<T>): (r: real)
    ensures 0.0 <= r <= 1.0
    ensures a == {} && b == {} ==> r == 1.0
    ensures (a == {}) != (b == {}) ==> r == 0.0
    ensures r == 1.0 <==> a == b
  {
    if a == {} && b == {} then 1.0
    else if a == {} || b == {} then 0.0
    else
      var inter, union := |a * b|, |a + b|;
      SubsetSmaller(a * b, a + b);
      assert union > 0 by {
        var x :| x in a;
        assert x in a + b;
      }
      if inter == union then
        SubsetSameSize(a * b, a + b);
        assert inter as real / union as real == 1.0;
        assert a == b by {
          assert forall x :: x in a ==> x in a * b;
          assert forall x :: x in b ==> x in a * b;
        }
        inter as real / union as real
      else
        assert a == b ==> a * b == a + b;
        DivBelowOne(inter as real, union as real);
        inter as real / union as real
  }

  lemma JaccardSymmetric<T>(a: set<T>, b: set<T>)
    ensures Jaccard(a, b) == Jaccard(b, a)
  {
    assert a * b == b * a && a + b == b + a;
  }

  /** `numeric_similarity`: closeness relative to the larger magnitude, scaled by the tolerance. */
  function NumericSimilarity(x: real, y: real, tolerance: real): (r: real)
    ensures 0.0 <= r <= 1.0
    ensures r == 1.0 <==> x == y
    ensures x != y && tolerance <= 0.0 ==> r == 0.0
    ensures x != y && Abs(x - y) > tolerance * Max(Abs(x), Abs(y)) ==> r == 0.0
    ensures x != y && tolerance > 0.0 && Abs(x - y) <= tolerance * Max(Abs(x), Abs(y)) ==>
      r == 1.0 - (Abs(x - y) / Max(Abs(x), Abs(y))) / tolerance
  {
    if x == y then 1.0
    else
      var m := Max(Abs(x), Abs(y));
      if m == 0.0 then 1.0
      else
        var rd := Abs(x - y) / m;
        assert rd > 0.0;
        if rd <= tolerance then
          DivInUnit(rd, tolerance);
          1.0 - rd / tolerance
        else
          assert Abs(x - y) > tolerance * m by {
            assert rd * m == Abs(x - y);
          }
          0.0
  }

  /** Inside the band the score falls linearly: a tenth apart with a tolerance of a fifth is half marks. */
  lemma NumericHalfway()
    ensures NumericSimilarity(1.0, 0.9, 0.2) == 0.5
  {
  }

  lemma NumericSimilaritySymmetric(x: real, y: real, tolerance: real)
    ensures NumericSimilarity(x, y, tolerance) == NumericSimilarity(y, x, tolerance)
  {
    assert Abs(x - y) == Abs(y - x);
  }

  /**
   * `list_similarity`: equal lists score 1.0; otherwise Jaccard over the lists'
   * elements, so order and duplicates never matter.
   */
  function ListSimilarity<T(==)>(a: seq<T>, b: seq<T>): (r: real)
    ensures r == Jaccard(Elements(a), Elements(b))
  {
    if a == b then 1.0
    else if a == [] && b == [] then 1.0
    else if a == [] || b == [] then
      assert a != [] ==> a[0] in Elements(a);
      assert b != [] ==> b[0] in Elements(b);
      0.0
    else Jaccard(Elements(a), Elements(b))
  }

  /**
   * `text_similarity`: equal texts score 1.0 and a lone empty text 0.0; the
   * remaining case is `SequenceMatcher.ratio`, a parameter here.
   */
  function TextSimilarity(a: string, b: string, ratio: (string, string) -> real): (r: real)
    ensures a == b ==> r == 1.0
    ensures a != b && (a == "" || b == "") ==> r == 0.0
    ensures a != b && a != "" && b != "" ==> r == ratio(a, b)
  {
    if a == b then 1.0
    else if a == "" || b == "" then 0.0
    else ratio(a, b)
  }
}
