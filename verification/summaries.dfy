/**
 * The rating-summary arithmetic of the CanBeReviewed trait: one
 * review_summaries row per reviewable, holding review_count and
 * average_rating, updated incrementally by addNewReview, decrementReview
 * and updateExistingReview instead of being recomputed from all reviews.
 */
module Summaries {
  import opened Wrappers

  /** One review_summaries row. */
  datatype Summary = Summary(reviewCount: nat, averageRating: real)

  /** The column defaults of a newly created row (0 reviews, average 0). */
  const Empty: Summary := Summary(0, 0.0)

  /** The rating total the stored average stands for. */
  function Total(s: Summary): real {
    s.averageRating * s.reviewCount as real
  }

  /** x is a whole number of hundredths, as the decimal(9, 2) column stores. */
  predicate IsCents(x: real) {
    (x * 100.0).Floor as real == x * 100.0
  }

  /** Rounds a non-negative value to two decimals, halves up. */
  function RoundHalfUp(y: real): (r: real)
    requires y >= 0.0
    ensures IsCents(r) && 0.0 <= r && y - 0.005 < r <= y + 0.005
  {
    var k := (y * 100.0 + 0.5).Floor;
    assert k as real <= y * 100.0 + 0.5 < k as real + 1.0;
    assert (k as real / 100.0) * 100.0 == k as real;
    k as real / 100.0
  }

  /** number_format(x, 2): round to two decimals, halves away from zero. */
  function Round2(x: real): (r: real)
    ensures IsCents(r)
    ensures x >= 0.0 ==> 0.0 <= r && x - 0.005 < r <= x + 0.005
    ensures x < 0.0 ==> r <= 0.0 && x - 0.005 <= r < x + 0.005
  {
    if x >= 0.0 then RoundHalfUp(x)
    else
      var r := -RoundHalfUp(-x);
      assert (r * 100.0).Floor == -((-r * 100.0).Floor);
      r
  }

  /** For x >= 0, Round2(x) is the one two-decimal value in (x - 0.005, x + 0.005]. */
  lemma Round2Unique(x: real, c: real)
    requires x >= 0.0 && IsCents(c) && x - 0.005 < c <= x + 0.005
    ensures Round2(x) == c
  {
    var m := (c * 100.0).Floor;
    var k := (x * 100.0 + 0.5).Floor;
    assert m as real == c * 100.0;
    assert k as real <= x * 100.0 + 0.5 < k as real + 1.0;
    assert -1 < m - k < 1;
    assert Round2(x) == RoundHalfUp(x) == k as real / 100.0;
  }

  /** Rounding a value that already has two decimals leaves it unchanged. */
  lemma Round2OfCents(c: real)
    requires IsCents(c)
    ensures Round2(c) == c
  {
    if c >= 0.0 {
      Round2Unique(c, c);
    } else {
      var m := (c * 100.0).Floor;
      assert (-c * 100.0).Floor == -m;
      Round2Unique(-c, -c);
      assert Round2(c) == -RoundHalfUp(-c);
    }
  }

  /** calculateAverageRating: 0 for a non-positive count, else the mean rounded to two decimals. */
  function CalculateAverageRating(totalRating: real, reviewCount: int): (r: real)
    ensures reviewCount <= 0 ==> r == 0.0
    ensures IsCents(r)
    ensures reviewCount > 0 && totalRating >= 0.0 ==>
      totalRating / reviewCount as real - 0.005 < r <= totalRating / reviewCount as real + 0.005
    ensures reviewCount > 0 && totalRating < 0.0 ==>
      totalRating / reviewCount as real - 0.005 <= r < totalRating / reviewCount as real + 0.005
  {
    if reviewCount <= 0 then 0.0 else Round2(totalRating / reviewCount as real)
  }

  /** The three in-place updates updateReviewSummary can apply to a summary. */
  datatype Op = Add(rating: real) | Remove(rating: real) | Edit(oldRating: real, newRating: real)

  /**
   * addNewReview, decrementReview (which resets to Empty once at most one
   * review is left) and updateExistingReview, on a summary whose columns
   * were read from the table.
   */
  function Apply(s: Summary, op: Op): (r: Summary)
    ensures op.Add? ==> r.reviewCount == s.reviewCount + 1
    ensures op.Remove? ==> r.reviewCount == if s.reviewCount <= 1 then 0 else s.reviewCount - 1
    ensures op.Edit? ==> r.reviewCount == s.reviewCount
    ensures IsCents(r.averageRating)
    ensures r.reviewCount == 0 ==> r.averageRating == 0.0
  {
    match op
    case Add(rating) =>
      Summary(s.reviewCount + 1,
              CalculateAverageRating(Total(s) + rating, s.reviewCount + 1))
    case Remove(rating) =>
      if s.reviewCount > 1 then
        Summary(s.reviewCount - 1,
                CalculateAverageRating(Total(s) - rating, s.reviewCount - 1))
      else Empty
    case Edit(oldRating, newRating) =>
      Summary(s.reviewCount,
              CalculateAverageRating(Total(s) - oldRating + newRating, s.reviewCount))
  }

  /** The exact rating total after op, which the rounded average approximates. */
  function ExactTotal(s: Summary, op: Op): real {
    match op
    case Add(rating) => Total(s) + rating
    case Remove(rating) => if s.reviewCount > 1 then Total(s) - rating else 0.0
    case Edit(oldRating, newRating) =>
      if s.reviewCount > 0 then Total(s) - oldRating + newRating else 0.0
  }

  lemma MulLe(x: real, y: real, k: real)
    requires x <= y && k >= 0.0
    ensures x * k <= y * k
  {
    assert (y - x) * k >= 0.0;
  }

  lemma DivMul(t: real, k: real)
    requires k != 0.0
    ensures (t / k) * k == t
  {
  }

  lemma QuotientOf(x: real, k: real, a: real)
    requires k != 0.0 && x == a * k
    ensures x / k == a
  {
  }

  /** A value within 0.005 of the quotient q = t / k, times k, is within k * 0.005 of t. */
  lemma NearTimes(a: real, q: real, t: real, k: real)
    requires k >= 0.0 && q * k == t && q - 0.005 <= a <= q + 0.005
    ensures t - k * 0.005 <= a * k <= t + k * 0.005
  {
    MulLe(a, q + 0.005, k);
    MulLe(q - 0.005, a, k);
  }

  /** A summary of c reviews whose average is the rounded mean of t has a total within c / 200 of t. */
  lemma RoundedTotal(t: real, c: nat, r: Summary)
    requires c > 0 && r == Summary(c, CalculateAverageRating(t, c))
    ensures t - c as real * 0.005 <= Total(r) <= t + c as real * 0.005
  {
    DivMul(t, c as real);
    NearTimes(r.averageRating, t / c as real, t, c as real);
  }

  /**
   * Every update keeps the stored total (average times count) within
   * count / 200 of the exact total: the only error an update adds is the
   * one rounding of the new average.
   */
  lemma ApplyTracksTotal(s: Summary, op: Op)
    ensures var c := Apply(s, op).reviewCount as real;
      ExactTotal(s, op) - c * 0.005 <= Total(Apply(s, op)) <= ExactTotal(s, op) + c * 0.005
  {
    var r := Apply(s, op);
    match op
    case Add(rating) =>
      RoundedTotal(Total(s) + rating, s.reviewCount + 1, r);
    case Remove(rating) =>
      if s.reviewCount > 1 {
        RoundedTotal(Total(s) - rating, s.reviewCount - 1, r);
      }
    case Edit(oldRating, newRating) =>
      if s.reviewCount > 0 {
        RoundedTotal(Total(s) - oldRating + newRating, s.reviewCount, r);
      }
  }

  /** From the empty summary, adding a rating and removing it again gives the empty summary. */
  lemma AddRemoveFromEmpty(rating: real)
    ensures Apply(Apply(Empty, Add(rating)), Remove(rating)) == Empty
  {
  }

  /**
   * Adding a rating and removing it again restores a summary of at least
   * one review whenever the addition needed no rounding.
   */
  lemma AddThenRemove(s: Summary, rating: real)
    requires s.reviewCount >= 1 && IsCents(s.averageRating)
    requires Total(Apply(s, Add(rating))) == ExactTotal(s, Add(rating))
    ensures Apply(Apply(s, Add(rating)), Remove(rating)) == s
  {
    var s1 := Apply(s, Add(rating));
    QuotientOf(Total(s1) - rating, s.reviewCount as real, s.averageRating);
    Round2OfCents(s.averageRating);
  }

  /**
   * Removing a rating and adding it back restores a summary of at least
   * two reviews whenever the removal needed no rounding.
   */
  lemma RemoveThenAdd(s: Summary, rating: real)
    requires s.reviewCount >= 2 && IsCents(s.averageRating)
    requires Total(Apply(s, Remove(rating))) == ExactTotal(s, Remove(rating))
    ensures Apply(Apply(s, Remove(rating)), Add(rating)) == s
  {
    var s1 := Apply(s, Remove(rating));
    QuotientOf(Total(s1) + rating, s.reviewCount as real, s.averageRating);
    Round2OfCents(s.averageRating);
  }

  /** Editing a rating and editing it back restores the summary when the edit needed no rounding. */
  lemma EditThenRevert(s: Summary, oldRating: real, newRating: real)
    requires s.reviewCount >= 1 && IsCents(s.averageRating)
    requires Total(Apply(s, Edit(oldRating, newRating))) == ExactTotal(s, Edit(oldRating, newRating))
    ensures Apply(Apply(s, Edit(oldRating, newRating)), Edit(newRating, oldRating)) == s
  {
    var s1 := Apply(s, Edit(oldRating, newRating));
    QuotientOf(Total(s1) - newRating + oldRating, s.reviewCount as real, s.averageRating);
    Round2OfCents(s.averageRating);
  }

  /** Adds the ratings one after the other, as successive approved reviews do. */
  function AddAll(s: Summary, ratings: seq<real>): Summary
    decreases |ratings|
  {
    if ratings == [] then s else AddAll(Apply(s, Add(ratings[0])), ratings[1..])
  }

  function Sum(ratings: seq<real>): real
    decreases |ratings|
  {
    if ratings == [] then 0.0 else ratings[0] + Sum(ratings[1..])
  }

  /** The worst-case drift of the stored total after n additions to a summary of c reviews. */
  function Drift(c: nat, n: nat): real {
    (2 * c * n + n * (n + 1)) as real / 400.0
  }

  lemma DriftStep(c: nat, n: nat)
    requires n >= 1
    ensures Drift(c + 1, n - 1) + (c + 1) as real * 0.005 == Drift(c, n)
  {
    assert 2 * (c + 1) * (n - 1) + (n - 1) * n + 2 * (c + 1) == 2 * c * n + n * (n + 1);
  }

  /** Two error bounds add up: a within e1 of b, and b within e2 of x, puts a within e1 + e2 of x. */
  lemma Chain(a: real, b: real, x: real, e1: real, e2: real, e: real)
    requires b - e1 <= a <= b + e1 && x - e2 <= b <= x + e2 && e1 + e2 == e
    ensures x - e <= a <= x + e
  {
  }

  /**
   * After n additions to a summary of c reviews the count is c + n, and the
   * stored total differs from the exact total by at most Drift(c, n):
   * each addition contributes the rounding error of one average.
   */
  lemma {:induction false} AddAllTracksSum(s: Summary, ratings: seq<real>)
    ensures AddAll(s, ratings).reviewCount == s.reviewCount + |ratings|
    ensures var d := Drift(s.reviewCount, |ratings|);
      Total(s) + Sum(ratings) - d <= Total(AddAll(s, ratings)) <= Total(s) + Sum(ratings) + d
    decreases |ratings|
  {
    if ratings != [] {
      var s1 := Apply(s, Add(ratings[0]));
      var rest := ratings[1..];
      ApplyTracksTotal(s, Add(ratings[0]));
      AddAllTracksSum(s1, rest);
      DriftStep(s.reviewCount, |ratings|);
      Chain(Total(AddAll(s1, rest)), Total(s1) + Sum(rest), Total(s) + Sum(ratings),
            Drift(s1.reviewCount, |rest|), s1.reviewCount as real * 0.005,
            Drift(s.reviewCount, |ratings|));
    }
  }

  /** The $params array of updateReviewSummary; None stands for a missing or null entry. */
  datatype Params = Params(rating: Option<real>, oldRating: Option<real>, isUpdate: bool, decrement: bool)

  /** The update updateReviewSummary picks: decrement first, then isUpdate, else add. */
  function Dispatch(p: Params): (op: Op)
    ensures op.Remove? <==> p.decrement
    ensures op.Edit? <==> !p.decrement && p.isUpdate
    ensures op.Add? <==> !p.decrement && !p.isUpdate
  {
    var rating := p.rating.GetOr(0.0);
    if p.decrement then Remove(rating)
    else if p.isUpdate then Edit(p.oldRating.GetOr(0.0), rating)
    else Add(rating)
  }

  /**
   * The dispatched update carries the rating given and, for an edit, the old
   * rating given; a missing rating or old rating counts as 0.
   */
  lemma DispatchDefaults(p: Params)
    ensures p.rating.Some? ==>
      Dispatch(p) in {Remove(p.rating.value), Add(p.rating.value), Edit(p.oldRating.GetOr(0.0), p.rating.value)}
    ensures p.rating.None? ==> Dispatch(p) in {Remove(0.0), Add(0.0), Edit(p.oldRating.GetOr(0.0), 0.0)}
    ensures p.oldRating.Some? && Dispatch(p).Edit? ==> Dispatch(p).oldRating == p.oldRating.value
    ensures p.oldRating.None? && Dispatch(p).Edit? ==> Dispatch(p).oldRating == 0.0
  {
  }

  /**
   * The ReviewSummary model instance that updateReviewSummary obtains with
   * firstOrCreate, updates in place and saves.
   */
  class SummaryRow {
    var reviewCount: nat
    var averageRating: real
    /**
     * False for a row firstOrCreate has just inserted: its columns are not
     * read back, so both attributes are null in memory. Null arithmetic acts
     * as 0, except where a null is passed to an int parameter.
     */
    var loaded: bool

    function Value(): Summary
      reads this
    {
      Summary(reviewCount, averageRating)
    }

    /** An existing row, read from the table. */
    constructor Load(s: Summary)
      ensures Value() == s && loaded
    {
      reviewCount, averageRating, loaded := s.reviewCount, s.averageRating, true;
    }

    /** A row firstOrCreate has just inserted with the column defaults. */
    constructor Created()
      ensures Value() == Empty && !loaded
    {
      reviewCount, averageRating, loaded := 0, 0.0, false;
    }

    /** addNewReview. */
    method AddNewReview(rating: real)
      modifies this
      ensures Value() == Apply(old(Value()), Add(rating)) && loaded
    {
      reviewCount := reviewCount + 1;
      assert averageRating * (reviewCount - 1) as real == Total(old(Value()));
      averageRating := CalculateAverageRating(
        averageRating * (reviewCount - 1) as real + rating, reviewCount);
      loaded := true;
    }

    /** decrementReview. */
    method DecrementReview(rating: real)
      modifies this
      ensures Value() == Apply(old(Value()), Remove(rating)) && loaded
    {
      if reviewCount > 1 {
        reviewCount := reviewCount - 1;
        var totalRating := averageRating * (reviewCount + 1) as real;
        assert totalRating == Total(old(Value()));
        averageRating := CalculateAverageRating(totalRating - rating, reviewCount);
      } else {
        reviewCount := 0;
        averageRating := 0.0;
      }
      loaded := true;
    }

    /**
     * updateExistingReview. On a row that was just created the null
     * review_count reaches calculateAverageRating's int parameter, which
     * raises a TypeError: ok is false and nothing is assigned.
     */
    method UpdateExistingReview(rating: real, oldRating: real) returns (ok: bool)
      modifies this
      ensures ok == old(loaded) && loaded == old(loaded)
      ensures Value() == if ok then Apply(old(Value()), Edit(oldRating, rating)) else old(Value())
    {
      if !loaded {
        return false;
      }
      var totalRating := averageRating * reviewCount as real - oldRating + rating;
      assert totalRating == Total(old(Value())) - oldRating + rating;
      averageRating := CalculateAverageRating(totalRating, reviewCount);
      ok := true;
    }
  }
}
