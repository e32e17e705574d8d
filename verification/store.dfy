/**
 * The database as the traits and the Review model change it: statement by
 * statement inside DB::transaction, with a rollback to the state the
 * transaction began in when a statement throws. Each operation is proved
 * to commit exactly the result of its transaction function, or to leave
 * the database as it was.
 */
module ReviewStore {
  import opened Wrappers
  import opened Summaries
  import opened Reviews
  import opened Transactions
  import opened Invariants

  class Store {
    var reviews: seq<ReviewRow>
    var summaries: map<Entity, Summary>
    var nextId: nat

    function State(): Db
      reads this
    {
      Db(reviews, summaries, nextId)
    }

    ghost predicate Valid()
      reads this
    {
      Invariants.Valid(State())
    }

    /** Freshly migrated, empty tables. */
    constructor ()
      ensures State() == Initial && Valid()
    {
      reviews, summaries, nextId := [], map[], 1;
      InitialValid();
    }

    /** DB::transaction rolling back: the state saved when the transaction began is restored. */
    method Rollback(saved: Db)
      modifies this
      ensures State() == saved
    {
      reviews, summaries, nextId := saved.reviews, saved.summaries, saved.nextId;
    }

    /**
     * updateReviewSummary: firstOrCreate the reviewable's summary row, apply
     * the update the params select and save it. ok is false when the update
     * threw; the row firstOrCreate inserted is then still there, for the
     * enclosing transaction to roll back.
     */
    method UpdateReviewSummary(e: Entity, params: Params) returns (ok: bool)
      modifies this
      ensures var r := SummaryUpdate(old(summaries), e, params);
        && ok == r.Success?
        && summaries == (if ok then r.value else old(summaries)[e := Empty])
      ensures reviews == old(reviews) && nextId == old(nextId)
    {
      var rating := params.rating.GetOr(0.0);
      var oldRating := params.oldRating.GetOr(0.0);
      var isUpdate := params.isUpdate;
      var decrement := params.decrement;

      var summary: SummaryRow;
      if e in summaries {
        summary := new SummaryRow.Load(summaries[e]);
      } else {
        summary := new SummaryRow.Created();
        summaries := summaries[e := Empty];
      }

      if decrement {
        summary.DecrementReview(rating);
        ok := true;
      } else if isUpdate {
        ok := summary.UpdateExistingReview(rating, oldRating);
      } else {
        summary.AddNewReview(rating);
        ok := true;
      }

      if ok {
        summaries := summaries[e := summary.Value()];
      }
    }

    /**
     * saveReview: find the pair's review through the approved-only view or
     * start a new one, fill and save it, then let handleUpdateReviewSummary
     * update the summary unless the data leaves the review unapproved.
     */
    method SaveReview(data: ReviewData, isUpdate: bool) returns (r: Result<ReviewRow, ReviewError>)
      modifies this
      ensures Committed(SaveReviewTxn(old(State()), data, isUpdate), r, old(State()), State())
    {
      var saved := State();
      var found := FirstReview(reviews, data.reviewer, data.reviewable, false);
      var oldRating := GetOldRating(if found.Some? then Some(reviews[found.value]) else None, isUpdate);

      var row: ReviewRow;
      if found.Some? {
        row := Fill(reviews[found.value], data);
        reviews := reviews[found.value := row];
      } else {
        row := NewRow(nextId, data);
        reviews := reviews + [row];
        nextId := nextId + 1;
      }

      if data.approval != Some(false) {
        var ok := UpdateReviewSummary(data.reviewable, Params(Some(data.rating), oldRating, isUpdate, false));
        if !ok {
          Rollback(saved);
          return Failure(NullReviewCount);
        }
      }
      r := Success(row);
    }

    /** review: refuse a duplicate in any approval state, else save the new review. */
    method Review(reviewer: Entity, reviewable: Entity, rating: real, content: Option<string>, isApproved: bool)
      returns (r: Result<ReviewRow, ReviewError>)
      modifies this
      ensures Committed(ReviewTxn(old(State()), reviewer, reviewable, rating, content, isApproved),
                        r, old(State()), State())
      ensures old(Valid()) ==> Valid()
    {
      if Valid() {
        ReviewKeepsValid(State(), reviewer, reviewable, rating, content, isApproved);
      }
      if HasReview(reviews, reviewer, reviewable, true) {
        return Failure(DuplicateReview);
      }
      r := SaveReview(ReviewData(reviewer, reviewable, rating, content, Some(isApproved)), false);
    }

    /** updateReview: save the new rating and content as an update. */
    method UpdateReview(reviewer: Entity, reviewable: Entity, newRating: real, newContent: Option<string>)
      returns (r: Result<ReviewRow, ReviewError>)
      modifies this
      ensures Committed(UpdateReviewTxn(old(State()), reviewer, reviewable, newRating, newContent),
                        r, old(State()), State())
      ensures old(Valid()) ==> Valid()
    {
      if Valid() {
        UpdateReviewKeepsValid(State(), reviewer, reviewable, newRating, newContent);
      }
      r := SaveReview(ReviewData(reviewer, reviewable, newRating, newContent, None), true);
    }

    /**
     * unreview: refuse when the pair has no review in any state; then, in
     * one transaction, take the first approved review, remove its rating
     * from the summary and delete it.
     */
    method Unreview(reviewer: Entity, reviewable: Entity) returns (r: Result<bool, ReviewError>)
      modifies this
      ensures Committed(UnreviewTxn(old(State()), reviewer, reviewable), r, old(State()), State())
      ensures old(Valid()) ==> Valid()
    {
      if Valid() {
        UnreviewKeepsValid(State(), reviewer, reviewable);
      }
      ViewsNest(reviews, reviewer, reviewable);
      if !HasReview(reviews, reviewer, reviewable, true) {
        return Failure(ReviewNotFound);
      }

      var saved := State();
      var found := FirstReview(reviews, reviewer, reviewable, false);
      if found.None? {
        Rollback(saved);
        return Failure(PropertyOfNull);
      }
      var i := found.value;
      var ok := UpdateReviewSummary(reviewable, Params(Some(reviews[i].rating), None, false, true));
      assert ok;
      reviews := RemoveAt(reviews, i);
      r := Success(true);
    }

    /** approve on the review with the given id. */
    method Approve(id: nat) returns (changed: bool)
      requires HasId(reviews, id)
      modifies this
      ensures (State(), changed) == ApproveTxn(old(State()), id)
      ensures old(Valid()) ==> Valid()
    {
      if Valid() {
        ApproveKeepsValid(State(), id);
      }
      var i := IndexOf(reviews, id);
      if reviews[i].approved {
        return false;
      }
      reviews := reviews[i := reviews[i].(approved := true)];
      var ok := UpdateReviewSummary(reviews[i].reviewable, Params(Some(reviews[i].rating), None, false, false));
      assert ok;
      changed := true;
    }

    /** unapprove on the review with the given id. */
    method Unapprove(id: nat) returns (changed: bool)
      requires HasId(reviews, id)
      modifies this
      ensures (State(), changed) == UnapproveTxn(old(State()), id)
      ensures old(Valid()) ==> Valid()
    {
      if Valid() {
        UnapproveKeepsValid(State(), id);
      }
      var i := IndexOf(reviews, id);
      if !reviews[i].approved {
        return false;
      }
      reviews := reviews[i := reviews[i].(approved := false)];
      var ok := UpdateReviewSummary(reviews[i].reviewable, Params(Some(reviews[i].rating), None, false, true));
      assert ok;
      changed := true;
    }
  }
}
