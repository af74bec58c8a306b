/** The derived average rating of a movie (`calculateAverageRating`).
    The source computes `Math.round((sum / n) * 10) / 10` in floating point;
    here the value is kept exactly as an integer number of tenths, so 4.5
    stars is 45.  `Math.round(x)` is `floor(x + 1/2)`, and for n > 0 reviews
    `floor(10*sum/n + 1/2) == (20*sum + n) / (2*n)` with Dafny's division,
    which rounds down when the divisor is positive. */
module Rating {
  import opened Common
  import opened Entities
  import Seqs

  function Sum(ratings: seq<int>): int {
    if |ratings| == 0 then 0 else ratings[0] + Sum(ratings[1..])
  }

  function RatingsOf(reviews: seq<Review>): seq<int> {
    Seqs.Map(reviews, (r: Review) => r.rating)
  }

  /** The average rating in tenths: 0 without reviews, otherwise the mean
      rounded to the nearest tenth, halves rounded up. */
  function AverageTenths(ratings: seq<int>): (r: int)
    ensures |ratings| == 0 ==> r == 0
    ensures |ratings| > 0 ==>
              (2 * r - 1) * |ratings| <= 20 * Sum(ratings) < (2 * r + 1) * |ratings|
  {
    if |ratings| == 0 then 0
    else
      var n := |ratings|;
      var q := (20 * Sum(ratings) + n) / (2 * n);
      assert 2 * n * q <= 20 * Sum(ratings) + n < 2 * n * q + 2 * n;
      assert (2 * q - 1) * n == 2 * n * q - n;
      assert (2 * q + 1) * n == 2 * n * q + n;
      q
  }

  function AverageRating(reviews: seq<Review>): int {
    AverageTenths(RatingsOf(reviews))
  }

  /** The rounding condition determines the average uniquely: a number of
      tenths `t` is the average exactly when `10*sum/n` lies within half a
      tenth below or strictly less than half a tenth above `t`. */
  lemma {:induction false} AverageIsNearestTenth(ratings: seq<int>, t: int)
    requires |ratings| > 0
    ensures AverageTenths(ratings) == t <==>
              (2 * t - 1) * |ratings| <= 20 * Sum(ratings) < (2 * t + 1) * |ratings|
  {
    var n := |ratings|;
    var a := AverageTenths(ratings);
    var s := 20 * Sum(ratings);
    if (2 * t - 1) * n <= s < (2 * t + 1) * n && t != a {
      if t < a {
        MulMono(2 * t + 1, 2 * a - 1, n);
      } else {
        MulMono(2 * a + 1, 2 * t - 1, n);
      }
      assert false;
    }
  }

  /** The sum of n ratings within [lo, hi] lies within [n*lo, n*hi]. */
  lemma {:induction false} SumBounds(ratings: seq<int>, lo: int, hi: int)
    requires forall i :: 0 <= i < |ratings| ==> lo <= ratings[i] <= hi
    ensures |ratings| * lo <= Sum(ratings) <= |ratings| * hi
  {
    if |ratings| > 0 {
      SumBounds(ratings[1..], lo, hi);
      assert |ratings| * lo == lo + (|ratings| - 1) * lo;
      assert |ratings| * hi == hi + (|ratings| - 1) * hi;
    }
  }

  lemma MulAssoc20(x: int, n: int)
    ensures (20 * x) * n == 20 * (n * x)
  {
  }

  lemma RoundedMeanLower(n: int, s: int, a: int, lo: int)
    requires n > 0 && n * lo <= s
    requires 20 * s < (2 * a + 1) * n
    ensures 10 * lo <= a
  {
    if a < 10 * lo {
      MulMono(2 * a + 1, 20 * lo, n);
      MulAssoc20(lo, n);
    }
  }

  lemma RoundedMeanUpper(n: int, s: int, a: int, hi: int)
    requires n > 0 && s <= n * hi
    requires (2 * a - 1) * n <= 20 * s
    ensures a <= 10 * hi
  {
    if a > 10 * hi {
      MulMono(20 * hi + 1, 2 * a - 1, n);
      MulAssoc20(hi, n);
    }
  }

  /** The average of ratings within [lo, hi] is within [lo, hi] as well; with
      the review validator's 1..5 stars it is between 1.0 and 5.0. */
  lemma AverageWithinBounds(ratings: seq<int>, lo: int, hi: int)
    requires |ratings| > 0
    requires forall i :: 0 <= i < |ratings| ==> lo <= ratings[i] <= hi
    ensures 10 * lo <= AverageTenths(ratings) <= 10 * hi
  {
    SumBounds(ratings, lo, hi);
    RoundedMeanLower(|ratings|, Sum(ratings), AverageTenths(ratings), lo);
    RoundedMeanUpper(|ratings|, Sum(ratings), AverageTenths(ratings), hi);
  }

  /** Reviews rated 5, 4 and 3 average 4.0; a movie without reviews has 0. */
  lemma AverageExamples()
    ensures AverageTenths([5, 4, 3]) == 40
    ensures AverageTenths([5, 4]) == 45
    ensures AverageTenths([]) == 0
  {
    assert Sum([5, 4, 3]) == 12 by {
      assert [5, 4, 3][1..] == [4, 3];
      assert [4, 3][1..] == [3];
    }
    assert Sum([5, 4]) == 9 by {
      assert [5, 4][1..] == [4];
    }
  }
}
