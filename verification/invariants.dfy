/**
 * What the review operations keep true of the database, and what pairs of
 * them undo. Every operation keeps each reviewable's review_count equal to
 * the number of its approved reviews; the averages match the ratings only
 * up to one rounding per update.
 */
module Invariants {
  import opened Wrappers
  import opened Summaries
  import opened Reviews
  import opened Transactions

  /** Empty tables; auto-increment ids start at 1. */
  const Initial: Db := Db([], map[], 1)

  /**
   * Each reviewable's review_count is the number of its approved reviews,
   * and every stored average has two decimals and is 0 when the count is.
   */
  ghost predicate Consistent(db: Db) {
    && (forall e :: SummaryOf(db.summaries, e).reviewCount == ApprovedCount(db.reviews, e))
    && (forall e | e in db.summaries ::
          IsCents(db.summaries[e].averageRating)
          && (db.summaries[e].reviewCount == 0 ==> db.summaries[e].averageRating == 0.0))
  }

  ghost predicate Valid(db: Db) {
    Consistent(db) && IdsBelow(db.reviews, db.nextId)
  }

  lemma InitialValid()
    ensures Valid(Initial)
  {
    forall e ensures SummaryOf(Initial.summaries, e).reviewCount == ApprovedCount(Initial.reviews, e) {
    }
  }

  /** Consistency survives a change that moves only rb's approved count, with a matching new summary for rb. */
  lemma ConsistentStep(db: Db, db': Db, rb: Entity, s': Summary)
    requires Consistent(db)
    requires db'.summaries == db.summaries[rb := s']
    requires forall e :: e != rb ==> ApprovedCount(db'.reviews, e) == ApprovedCount(db.reviews, e)
    requires s'.reviewCount == ApprovedCount(db'.reviews, rb)
    requires IsCents(s'.averageRating) && (s'.reviewCount == 0 ==> s'.averageRating == 0.0)
    ensures Consistent(db')
  {
    forall e ensures SummaryOf(db'.summaries, e).reviewCount == ApprovedCount(db'.reviews, e) {
      if e != rb {
        assert SummaryOf(db'.summaries, e) == SummaryOf(db.summaries, e);
      }
    }
  }

  /** In a consistent database, a summary with no reviews is the empty one. */
  lemma NoReviewsIsEmpty(db: Db, e: Entity)
    requires Consistent(db) && SummaryOf(db.summaries, e).reviewCount == 0
    ensures SummaryOf(db.summaries, e) == Empty
  {
  }

  /** review keeps the database valid. */
  lemma ReviewKeepsValid(db: Db, reviewer: Entity, reviewable: Entity, rating: real,
                         content: Option<string>, isApproved: bool)
    requires Valid(db)
    ensures var r := ReviewTxn(db, reviewer, reviewable, rating, content, isApproved);
      r.Success? ==> Valid(r.value.0)
  {
    var r := ReviewTxn(db, reviewer, reviewable, rating, content, isApproved);
    if r.Success? {
      var (db', row) := r.value;
      forall e ensures ApprovedCount(db'.reviews, e) == ApprovedCount(db.reviews, e) + Counted(row, e) {
        ApprovedCountAppend(db.reviews, row, e);
      }
      if isApproved {
        ConsistentStep(db, db', reviewable, db'.summaries[reviewable]);
      } else {
        assert Consistent(db') by {
          forall e ensures SummaryOf(db'.summaries, e).reviewCount == ApprovedCount(db'.reviews, e) {
          }
        }
      }
    }
  }

  /** updateReview keeps the database valid: the count is untouched, whichever row it writes. */
  lemma UpdateReviewKeepsValid(db: Db, reviewer: Entity, reviewable: Entity, newRating: real,
                               newContent: Option<string>)
    requires Valid(db)
    ensures var r := UpdateReviewTxn(db, reviewer, reviewable, newRating, newContent);
      r.Success? ==> Valid(r.value.0)
  {
    var r := UpdateReviewTxn(db, reviewer, reviewable, newRating, newContent);
    if r.Success? {
      var (db', row) := r.value;
      var found := FirstReview(db.reviews, reviewer, reviewable, false);
      if found.Some? {
        var i := found.value;
        forall e ensures ApprovedCount(db'.reviews, e) == ApprovedCount(db.reviews, e) {
          ApprovedCountUpdate(db.reviews, i, row, e);
        }
      } else {
        forall e ensures ApprovedCount(db'.reviews, e) == ApprovedCount(db.reviews, e) {
          ApprovedCountAppend(db.reviews, row, e);
        }
      }
      ConsistentStep(db, db', reviewable, db'.summaries[reviewable]);
    }
  }

  /** unreview keeps the database valid: one approved review and one count go together. */
  lemma UnreviewKeepsValid(db: Db, reviewer: Entity, reviewable: Entity)
    requires Valid(db)
    ensures var r := UnreviewTxn(db, reviewer, reviewable);
      r.Success? ==> Valid(r.value.0)
  {
    var r := UnreviewTxn(db, reviewer, reviewable);
    if r.Success? {
      var db' := r.value.0;
      var i := FirstReview(db.reviews, reviewer, reviewable, false).value;
      forall e ensures ApprovedCount(db'.reviews, e) + Counted(db.reviews[i], e) == ApprovedCount(db.reviews, e) {
        ApprovedCountRemove(db.reviews, i, e);
      }
      ConsistentStep(db, db', reviewable, db'.summaries[reviewable]);
    }
  }

  /** approve keeps the database valid. */
  lemma ApproveKeepsValid(db: Db, id: nat)
    requires Valid(db) && HasId(db.reviews, id)
    ensures Valid(ApproveTxn(db, id).0)
  {
    var (db', changed) := ApproveTxn(db, id);
    if changed {
      var i := IndexOf(db.reviews, id);
      var row := db.reviews[i];
      forall e ensures ApprovedCount(db'.reviews, e) + Counted(row, e)
                         == ApprovedCount(db.reviews, e) + Counted(row.(approved := true), e) {
        ApprovedCountUpdate(db.reviews, i, row.(approved := true), e);
      }
      ConsistentStep(db, db', row.reviewable, db'.summaries[row.reviewable]);
    }
  }

  /** unapprove keeps the database valid. */
  lemma UnapproveKeepsValid(db: Db, id: nat)
    requires Valid(db) && HasId(db.reviews, id)
    ensures Valid(UnapproveTxn(db, id).0)
  {
    var (db', changed) := UnapproveTxn(db, id);
    if changed {
      var i := IndexOf(db.reviews, id);
      var row := db.reviews[i];
      forall e ensures ApprovedCount(db'.reviews, e) + Counted(row, e)
                         == ApprovedCount(db.reviews, e) + Counted(row.(approved := false), e) {
        ApprovedCountUpdate(db.reviews, i, row.(approved := false), e);
      }
      ConsistentStep(db, db', row.reviewable, db'.summaries[row.reviewable]);
    }
  }

  /** review never creates a second review of a pair. */
  lemma ReviewKeepsOnePerPair(db: Db, reviewer: Entity, reviewable: Entity, rating: real,
                              content: Option<string>, isApproved: bool)
    requires OnePerPair(db.reviews)
    ensures var r := ReviewTxn(db, reviewer, reviewable, rating, content, isApproved);
      r.Success? ==> OnePerPair(r.value.0.reviews)
  {
    var r := ReviewTxn(db, reviewer, reviewable, rating, content, isApproved);
    if r.Success? {
      var rows := r.value.0.reviews;
      forall i, j | 0 <= i < j < |rows|
        ensures !(rows[i].reviewer == rows[j].reviewer && rows[i].reviewable == rows[j].reviewable)
      {
        if j == |db.reviews| {
          assert !Matches(db.reviews[i], reviewer, reviewable, true);
        }
      }
    }
  }

  /**
   * updateReview keeps one review per pair as long as the pair's review, if
   * it has one, is approved. (An unapproved one is invisible to its lookup,
   * so it would be duplicated.)
   */
  lemma UpdateReviewKeepsOnePerPair(db: Db, reviewer: Entity, reviewable: Entity, newRating: real,
                                    newContent: Option<string>)
    requires OnePerPair(db.reviews)
    requires HasReview(db.reviews, reviewer, reviewable, true) ==> HasReview(db.reviews, reviewer, reviewable, false)
    ensures var r := UpdateReviewTxn(db, reviewer, reviewable, newRating, newContent);
      r.Success? ==> OnePerPair(r.value.0.reviews)
  {
    var r := UpdateReviewTxn(db, reviewer, reviewable, newRating, newContent);
    ViewsNest(db.reviews, reviewer, reviewable);
    if r.Success? {
      var rows := r.value.0.reviews;
      forall i, j | 0 <= i < j < |rows|
        ensures !(rows[i].reviewer == rows[j].reviewer && rows[i].reviewable == rows[j].reviewable)
      {
        if j == |db.reviews| {
          assert !Matches(db.reviews[i], reviewer, reviewable, true);
        }
      }
    }
  }

  /** After a successful unreview the pair has no review left, in any state, and pairs stay unique. */
  lemma UnreviewRemovesPair(db: Db, reviewer: Entity, reviewable: Entity)
    requires OnePerPair(db.reviews)
    ensures var r := UnreviewTxn(db, reviewer, reviewable);
      r.Success? ==> OnePerPair(r.value.0.reviews) && !HasReview(r.value.0.reviews, reviewer, reviewable, true)
  {
    var r := UnreviewTxn(db, reviewer, reviewable);
    if r.Success? {
      var rows := r.value.0.reviews;
      var i := FirstReview(db.reviews, reviewer, reviewable, false).value;
      forall k | 0 <= k < |rows| ensures !Matches(rows[k], reviewer, reviewable, true) {
        if k < i {
          assert rows[k] == db.reviews[k];
        } else {
          assert rows[k] == db.reviews[k + 1];
        }
      }
      forall a, b | 0 <= a < b < |rows|
        ensures !(rows[a].reviewer == rows[b].reviewer && rows[a].reviewable == rows[b].reviewable)
      {
        var a' := if a < i then a else a + 1;
        var b' := if b < i then b else b + 1;
        assert rows[a] == db.reviews[a'] && rows[b] == db.reviews[b'];
      }
    }
  }

  /** approve and unapprove touch no row's pair. */
  lemma ApprovalKeepsOnePerPair(db: Db, id: nat)
    requires OnePerPair(db.reviews) && HasId(db.reviews, id)
    ensures OnePerPair(ApproveTxn(db, id).0.reviews) && OnePerPair(UnapproveTxn(db, id).0.reviews)
  {
  }

  /** A second approve of the same review returns false and changes nothing. */
  lemma ApproveIdempotent(db: Db, id: nat)
    requires HasId(db.reviews, id)
    ensures var db1 := ApproveTxn(db, id).0;
      HasId(db1.reviews, id) && ApproveTxn(db1, id) == (db1, false)
  {
    var db1 := ApproveTxn(db, id).0;
    IndexOfSameIds(db.reviews, db1.reviews, id);
  }

  /** A second unapprove of the same review returns false and changes nothing. */
  lemma UnapproveIdempotent(db: Db, id: nat)
    requires HasId(db.reviews, id)
    ensures var db1 := UnapproveTxn(db, id).0;
      HasId(db1.reviews, id) && UnapproveTxn(db1, id) == (db1, false)
  {
    var db1 := UnapproveTxn(db, id).0;
    IndexOfSameIds(db.reviews, db1.reviews, id);
  }

  /**
   * Adding a rating to a consistent summary and removing it again restores
   * it, when the summary was empty or the addition needed no rounding.
   */
  lemma AddRemoveRestores(db: Db, e: Entity, rating: real)
    requires Consistent(db)
    requires var s := SummaryOf(db.summaries, e);
      s.reviewCount == 0 || Total(Apply(s, Add(rating))) == ExactTotal(s, Add(rating))
    ensures var s := SummaryOf(db.summaries, e); Apply(Apply(s, Add(rating)), Remove(rating)) == s
  {
    var s := SummaryOf(db.summaries, e);
    if s.reviewCount == 0 {
      NoReviewsIsEmpty(db, e);
      AddRemoveFromEmpty(rating);
    } else {
      AddThenRemove(s, rating);
    }
  }

  /**
   * approve then unapprove of an unapproved review restores the reviews
   * and every reviewable's summary, when the summary was empty or the
   * addition needed no rounding.
   */
  lemma ApproveThenUnapprove(db: Db, id: nat)
    requires Consistent(db) && HasId(db.reviews, id)
    requires !db.reviews[IndexOf(db.reviews, id)].approved
    requires var row := db.reviews[IndexOf(db.reviews, id)];
      var s := SummaryOf(db.summaries, row.reviewable);
      s.reviewCount == 0 || Total(Apply(s, Add(row.rating))) == ExactTotal(s, Add(row.rating))
    ensures var (db1, approved) := ApproveTxn(db, id);
      approved && HasId(db1.reviews, id)
      && var (db2, unapproved) := UnapproveTxn(db1, id);
      && unapproved
      && db2.reviews == db.reviews
      && db2.nextId == db.nextId
      && forall e :: SummaryOf(db2.summaries, e) == SummaryOf(db.summaries, e)
  {
    var i := IndexOf(db.reviews, id);
    var row := db.reviews[i];
    var db1 := ApproveTxn(db, id).0;
    IndexOfSameIds(db.reviews, db1.reviews, id);
    AddRemoveRestores(db, row.reviewable, row.rating);
    var db2 := UnapproveTxn(db1, id).0;
    assert db2.reviews == db.reviews[i := row.(approved := true)][i := row];
    forall e ensures SummaryOf(db2.summaries, e) == SummaryOf(db.summaries, e) {
      if e != row.reviewable {
        assert SummaryOf(db1.summaries, e) == SummaryOf(db.summaries, e);
      }
    }
  }

  /**
   * unapprove then approve of an approved review restores the reviews and
   * every reviewable's summary, when at least two reviews were counted and
   * the removal needed no rounding.
   */
  lemma UnapproveThenApprove(db: Db, id: nat)
    requires Consistent(db) && HasId(db.reviews, id)
    requires db.reviews[IndexOf(db.reviews, id)].approved
    requires var row := db.reviews[IndexOf(db.reviews, id)];
      var s := SummaryOf(db.summaries, row.reviewable);
      s.reviewCount >= 2 && Total(Apply(s, Remove(row.rating))) == ExactTotal(s, Remove(row.rating))
    ensures var (db1, unapproved) := UnapproveTxn(db, id);
      unapproved && HasId(db1.reviews, id)
      && var (db2, approved) := ApproveTxn(db1, id);
      && approved
      && db2.reviews == db.reviews
      && db2.nextId == db.nextId
      && forall e :: SummaryOf(db2.summaries, e) == SummaryOf(db.summaries, e)
  {
    var i := IndexOf(db.reviews, id);
    var row := db.reviews[i];
    var s := SummaryOf(db.summaries, row.reviewable);
    var db1 := UnapproveTxn(db, id).0;
    IndexOfSameIds(db.reviews, db1.reviews, id);
    RemoveThenAdd(s, row.rating);
    var db2 := ApproveTxn(db1, id).0;
    assert db2.reviews == db.reviews[i := row.(approved := false)][i := row];
    forall e ensures SummaryOf(db2.summaries, e) == SummaryOf(db.summaries, e) {
      if e != row.reviewable {
        assert SummaryOf(db1.summaries, e) == SummaryOf(db.summaries, e);
      }
    }
  }

  /**
   * approve then unapprove of an unapproved review always restores the
   * reviews, the id counter and every review_count; only the averages
   * depend on rounding.
   */
  lemma ApproveThenUnapproveCounts(db: Db, id: nat)
    requires HasId(db.reviews, id)
    requires !db.reviews[IndexOf(db.reviews, id)].approved
    ensures var (db1, approved) := ApproveTxn(db, id);
      approved && HasId(db1.reviews, id)
      && var (db2, unapproved) := UnapproveTxn(db1, id);
      && unapproved
      && db2.reviews == db.reviews
      && db2.nextId == db.nextId
      && forall e :: SummaryOf(db2.summaries, e).reviewCount == SummaryOf(db.summaries, e).reviewCount
  {
    var i := IndexOf(db.reviews, id);
    var row := db.reviews[i];
    var db1 := ApproveTxn(db, id).0;
    IndexOfSameIds(db.reviews, db1.reviews, id);
    var db2 := UnapproveTxn(db1, id).0;
    assert db2.reviews == db.reviews[i := row.(approved := true)][i := row];
    forall e ensures SummaryOf(db2.summaries, e).reviewCount == SummaryOf(db.summaries, e).reviewCount {
      if e != row.reviewable {
        assert SummaryOf(db1.summaries, e) == SummaryOf(db.summaries, e);
      }
    }
  }

  /**
   * unapprove then approve of an approved review in a consistent database
   * always restores the reviews, the id counter and every review_count,
   * a summary of one review (1, then 0, then 1) included.
   */
  lemma UnapproveThenApproveCounts(db: Db, id: nat)
    requires Consistent(db) && HasId(db.reviews, id)
    requires db.reviews[IndexOf(db.reviews, id)].approved
    ensures var (db1, unapproved) := UnapproveTxn(db, id);
      unapproved && HasId(db1.reviews, id)
      && var (db2, approved) := ApproveTxn(db1, id);
      && approved
      && db2.reviews == db.reviews
      && db2.nextId == db.nextId
      && forall e :: SummaryOf(db2.summaries, e).reviewCount == SummaryOf(db.summaries, e).reviewCount
  {
    var i := IndexOf(db.reviews, id);
    var row := db.reviews[i];
    ApprovedCountRemove(db.reviews, i, row.reviewable);
    assert SummaryOf(db.summaries, row.reviewable).reviewCount >= 1;
    var db1 := UnapproveTxn(db, id).0;
    IndexOfSameIds(db.reviews, db1.reviews, id);
    var db2 := ApproveTxn(db1, id).0;
    assert db2.reviews == db.reviews[i := row.(approved := false)][i := row];
    forall e ensures SummaryOf(db2.summaries, e).reviewCount == SummaryOf(db.summaries, e).reviewCount {
      if e != row.reviewable {
        assert SummaryOf(db1.summaries, e) == SummaryOf(db.summaries, e);
      }
    }
  }

  /**
   * An approved review followed by its unreview restores the reviews and
   * every summary (the id counter has moved on), when the summary was
   * empty or the addition needed no rounding.
   */
  lemma ReviewThenUnreview(db: Db, reviewer: Entity, reviewable: Entity, rating: real, content: Option<string>)
    requires Consistent(db)
    requires !HasReview(db.reviews, reviewer, reviewable, true)
    requires var s := SummaryOf(db.summaries, reviewable);
      s.reviewCount == 0 || Total(Apply(s, Add(rating))) == ExactTotal(s, Add(rating))
    ensures var r1 := ReviewTxn(db, reviewer, reviewable, rating, content, true);
      r1.Success?
      && var r2 := UnreviewTxn(r1.value.0, reviewer, reviewable);
      && r2.Success?
      && r2.value.0.reviews == db.reviews
      && r2.value.0.nextId == db.nextId + 1
      && forall e :: SummaryOf(r2.value.0.summaries, e) == SummaryOf(db.summaries, e)
  {
    var db1 := ReviewTxn(db, reviewer, reviewable, rating, content, true).value.0;
    var row := ReviewRow(db.nextId, reviewer, reviewable, rating, content, true);
    ViewsNest(db.reviews, reviewer, reviewable);
    FirstReviewAppended(db.reviews, row, reviewer, reviewable, false);
    assert HasReview(db1.reviews, reviewer, reviewable, false);
    ViewsNest(db1.reviews, reviewer, reviewable);
    assert RemoveAt(db1.reviews, |db.reviews|) == db.reviews;
    AddRemoveRestores(db, reviewable, rating);
    var db2 := UnreviewTxn(db1, reviewer, reviewable).value.0;
    forall e ensures SummaryOf(db2.summaries, e) == SummaryOf(db.summaries, e) {
      if e != reviewable {
        assert SummaryOf(db1.summaries, e) == SummaryOf(db.summaries, e);
      }
    }
  }

  /** Successive approved reviews of one reviewable, the k-th by reviewers[k] with ratings[k], stopping at the first failure. */
  function ReviewAll(db: Db, reviewable: Entity, reviewers: seq<Entity>, ratings: seq<real>): Result<Db, ReviewError>
    requires |reviewers| == |ratings|
    decreases |reviewers|
  {
    if reviewers == [] then Success(db)
    else match ReviewTxn(db, reviewers[0], reviewable, ratings[0], None, true)
      case Failure(e) => Failure(e)
      case Success(v) => ReviewAll(v.0, reviewable, reviewers[1..], ratings[1..])
  }

  /**
   * Distinct reviewers with no review of the reviewable yet all succeed; the
   * reviewable's summary receives the ratings' additions in order and every
   * other summary is left as it was.
   */
  lemma {:induction false} ReviewAllSummaries(db: Db, reviewable: Entity, reviewers: seq<Entity>, ratings: seq<real>)
    requires |reviewers| == |ratings|
    requires forall i, j :: 0 <= i < j < |reviewers| ==> reviewers[i] != reviewers[j]
    requires forall i :: 0 <= i < |reviewers| ==> !HasReview(db.reviews, reviewers[i], reviewable, true)
    ensures var r := ReviewAll(db, reviewable, reviewers, ratings);
      && r.Success?
      && SummaryOf(r.value.summaries, reviewable) == AddAll(SummaryOf(db.summaries, reviewable), ratings)
      && forall e :: e != reviewable ==> SummaryOf(r.value.summaries, e) == SummaryOf(db.summaries, e)
    decreases |reviewers|
  {
    if reviewers != [] {
      var r1 := ReviewTxn(db, reviewers[0], reviewable, ratings[0], None, true);
      assert r1.Success?;
      var db1 := r1.value.0;
      var row := r1.value.1;
      forall i | 0 <= i < |reviewers[1..]|
        ensures !HasReview(db1.reviews, reviewers[1..][i], reviewable, true)
      {
        HasReviewAppend(db.reviews, row, reviewers[1..][i], reviewable, true);
      }
      ReviewAllSummaries(db1, reviewable, reviewers[1..], ratings[1..]);
      forall e | e != reviewable
        ensures SummaryOf(db1.summaries, e) == SummaryOf(db.summaries, e)
      {
      }
    }
  }

  /**
   * N approved reviews by distinct reviewers of a reviewable with no
   * summary yet leave its count at N and its average times N within
   * N(N+1)/400 of the sum of the ratings.
   */
  lemma ReviewAllCount(db: Db, reviewable: Entity, reviewers: seq<Entity>, ratings: seq<real>)
    requires |reviewers| == |ratings|
    requires forall i, j :: 0 <= i < j < |reviewers| ==> reviewers[i] != reviewers[j]
    requires forall i :: 0 <= i < |reviewers| ==> !HasReview(db.reviews, reviewers[i], reviewable, true)
    requires reviewable !in db.summaries
    ensures var r := ReviewAll(db, reviewable, reviewers, ratings);
      && r.Success?
      && var s := SummaryOf(r.value.summaries, reviewable);
      && s.reviewCount == |ratings|
      && Sum(ratings) - Drift(0, |ratings|) <= Total(s) <= Sum(ratings) + Drift(0, |ratings|)
  {
    ReviewAllSummaries(db, reviewable, reviewers, ratings);
    AddAllTracksSum(Empty, ratings);
  }
}
