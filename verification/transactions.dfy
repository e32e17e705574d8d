/**
 * The review operations of the CanReview trait and the approval changes of
 * the Review model, each as one database transaction from a database
 * state to a result: either the committed state (and what the operation
 * returns) or the error that rolled the whole transaction back.
 */
module Transactions {
  import opened Wrappers
  import opened Summaries
  import opened Reviews

  /** Why a transaction rolled back. */
  datatype ReviewError =
    | DuplicateReview   // DuplicateReviewException from review
    | ReviewNotFound    // ReviewNotFoundException from unreview
    | PropertyOfNull    // unreview read `rating` of the null its scoped lookup returned
    | NullReviewCount   // updateExistingReview on a just-created summary passed a null count

  /** The reviews and review_summaries tables, and the next auto-increment review id. */
  datatype Db = Db(reviews: seq<ReviewRow>, summaries: map<Entity, Summary>, nextId: nat)

  /** The summary of e; a reviewable without a row reads as the column defaults. */
  function SummaryOf(summaries: map<Entity, Summary>, e: Entity): Summary {
    if e in summaries then summaries[e] else Empty
  }

  /**
   * updateReviewSummary on the review_summaries table: firstOrCreate the row
   * of e, apply the dispatched update and save. On a row it has just created
   * an Edit fails, because the row's count was never read back.
   */
  function SummaryUpdate(summaries: map<Entity, Summary>, e: Entity, p: Params)
    : (r: Result<map<Entity, Summary>, ReviewError>)
    ensures r.Failure? <==> Dispatch(p).Edit? && e !in summaries
    ensures r.Failure? ==> r.error == NullReviewCount
    ensures r.Success? ==> r.value.Keys == summaries.Keys + {e}
    ensures r.Success? ==> r.value[e] == Apply(SummaryOf(summaries, e), Dispatch(p))
    ensures r.Success? ==> forall e' :: e' in summaries && e' != e ==> r.value[e'] == summaries[e']
  {
    var op := Dispatch(p);
    if op.Edit? && e !in summaries then Failure(NullReviewCount)
    else Success(summaries[e := Apply(SummaryOf(summaries, e), op)])
  }

  /**
   * The $data array saveReview receives. `approval` is None when the array
   * has no approved_at key (updateReview), Some(b) when it has one (review).
   */
  datatype ReviewData = ReviewData(
    reviewer: Entity,
    reviewable: Entity,
    rating: real,
    content: Option<string>,
    approval: Option<bool>)

  /** fill($data) on an existing row: every key in the data overwrites its column. */
  function Fill(row: ReviewRow, data: ReviewData): (r: ReviewRow)
    ensures r.id == row.id
    ensures r.reviewer == data.reviewer && r.reviewable == data.reviewable
    ensures r.rating == data.rating && r.content == data.content
    ensures data.approval.Some? ==> r.approved == data.approval.value
    ensures data.approval.None? ==> r.approved == row.approved
  {
    row.(reviewer := data.reviewer, reviewable := data.reviewable, rating := data.rating,
         content := data.content, approved := data.approval.GetOr(row.approved))
  }

  /** fill($data) on the new model firstOrNew returns, saved under the next id. */
  function NewRow(id: nat, data: ReviewData): (r: ReviewRow)
    ensures r.id == id
    ensures forall row: ReviewRow :: row.id == id && !row.approved ==> Fill(row, data) == r
  {
    ReviewRow(id, data.reviewer, data.reviewable, data.rating, data.content, data.approval.GetOr(false))
  }

  /**
   * getOldRating: 0.0 for a new review; for an update the rating of the row
   * found, or null (None) when firstOrNew made a new one.
   */
  function GetOldRating(found: Option<ReviewRow>, isUpdate: bool): (r: Option<real>)
    ensures !isUpdate ==> r == Some(0.0)
    ensures isUpdate ==> (r.Some? <==> found.Some?)
    ensures isUpdate && found.Some? ==> r.value == found.value.rating
  {
    if !isUpdate then Some(0.0)
    else if found.Some? then Some(found.value.rating)
    else None
  }

  /**
   * A transaction's outcome as its caller sees it: on success the state is
   * the committed one and the value is returned; on failure the error is
   * raised and the state is what it was before the transaction began.
   */
  predicate Committed<T(==)>(t: Result<(Db, T), ReviewError>, r: Result<T, ReviewError>, before: Db, after: Db) {
    match t
    case Success(v) => r == Success(v.1) && after == v.0
    case Failure(e) => r == Failure(e) && after == before
  }

  /**
   * saveReview: look the pair's review up in the approved-only view
   * (firstOrNew), fill and save it, then unless the data explicitly leaves
   * the review unapproved, update the reviewable's summary with Add, or
   * with Edit from the old rating on an update.
   */
  function SaveReviewTxn(db: Db, data: ReviewData, isUpdate: bool): (r: Result<(Db, ReviewRow), ReviewError>)
    ensures var found := FirstReview(db.reviews, data.reviewer, data.reviewable, false);
      r.Success? ==>
        var (db', row) := r.value;
        && row.reviewer == data.reviewer && row.reviewable == data.reviewable
        && row.rating == data.rating && row.content == data.content
        && row.approved == data.approval.GetOr(found.Some?)
        && (found.Some? ==>
              row.id == db.reviews[found.value].id
              && db'.reviews == db.reviews[found.value := row] && db'.nextId == db.nextId)
        && (found.None? ==>
              row.id == db.nextId && db'.reviews == db.reviews + [row] && db'.nextId == db.nextId + 1)
    ensures var found := FirstReview(db.reviews, data.reviewer, data.reviewable, false);
      var op := if !isUpdate then Add(data.rating)
                else Edit(if found.Some? then db.reviews[found.value].rating else 0.0, data.rating);
      r.Success? ==>
        r.value.0.summaries ==
          if data.approval == Some(false) then db.summaries
          else db.summaries[data.reviewable := Apply(SummaryOf(db.summaries, data.reviewable), op)]
    ensures r.Failure? <==> isUpdate && data.approval != Some(false) && data.reviewable !in db.summaries
    ensures r.Failure? ==> r.error == NullReviewCount
  {
    var found := FirstReview(db.reviews, data.reviewer, data.reviewable, false);
    var oldRating := GetOldRating(if found.Some? then Some(db.reviews[found.value]) else None, isUpdate);
    var (reviews, row, nextId) :=
      if found.Some? then
        var row := Fill(db.reviews[found.value], data);
        (db.reviews[found.value := row], row, db.nextId)
      else
        var row := NewRow(db.nextId, data);
        (db.reviews + [row], row, db.nextId + 1);
    if data.approval == Some(false) then Success((Db(reviews, db.summaries, nextId), row))
    else
      match SummaryUpdate(db.summaries, data.reviewable, Params(Some(data.rating), oldRating, isUpdate, false))
      case Failure(e) => Failure(e)
      case Success(summaries) => Success((Db(reviews, summaries, nextId), row))
  }

  /**
   * review: refuse a second review of the pair in any approval state,
   * otherwise insert it, approved or not, and count an approved one in the
   * reviewable's summary.
   */
  function ReviewTxn(db: Db, reviewer: Entity, reviewable: Entity, rating: real,
                     content: Option<string>, isApproved: bool): (r: Result<(Db, ReviewRow), ReviewError>)
    ensures r.Failure? <==> HasReview(db.reviews, reviewer, reviewable, true)
    ensures r.Failure? ==> r.error == DuplicateReview
    ensures r.Success? ==>
      var row := ReviewRow(db.nextId, reviewer, reviewable, rating, content, isApproved);
      && r.value.1 == row
      && r.value.0.reviews == db.reviews + [row]
      && r.value.0.nextId == db.nextId + 1
      && r.value.0.summaries ==
           if isApproved then db.summaries[reviewable := Apply(SummaryOf(db.summaries, reviewable), Add(rating))]
           else db.summaries
  {
    if HasReview(db.reviews, reviewer, reviewable, true) then Failure(DuplicateReview)
    else
      ViewsNest(db.reviews, reviewer, reviewable);
      SaveReviewTxn(db, ReviewData(reviewer, reviewable, rating, content, Some(isApproved)), false)
  }

  /**
   * updateReview: saveReview as an update, with no approved_at in the data.
   * The approved-only lookup finds the pair's approved review, which gets the
   * new rating and content and an Edit of its old rating; when there is
   * none, a new unapproved row is inserted and the summary still gets an
   * Edit from 0.0. A reviewable without a summary row makes it fail.
   */
  function UpdateReviewTxn(db: Db, reviewer: Entity, reviewable: Entity, newRating: real,
                           newContent: Option<string>): (r: Result<(Db, ReviewRow), ReviewError>)
    ensures r.Failure? <==> reviewable !in db.summaries
    ensures r.Failure? ==> r.error == NullReviewCount
    ensures var found := FirstReview(db.reviews, reviewer, reviewable, false);
      r.Success? && found.Some? ==>
        var prev := db.reviews[found.value];
        var row := prev.(rating := newRating, content := newContent);
        && prev.approved
        && r.value == (Db(db.reviews[found.value := row],
                          db.summaries[reviewable := Apply(db.summaries[reviewable], Edit(prev.rating, newRating))],
                          db.nextId), row)
    ensures var found := FirstReview(db.reviews, reviewer, reviewable, false);
      r.Success? && found.None? ==>
        var row := ReviewRow(db.nextId, reviewer, reviewable, newRating, newContent, false);
        r.value == (Db(db.reviews + [row],
                       db.summaries[reviewable := Apply(db.summaries[reviewable], Edit(0.0, newRating))],
                       db.nextId + 1), row)
  {
    SaveReviewTxn(db, ReviewData(reviewer, reviewable, newRating, newContent, None), true)
  }

  /**
   * unreview: fail when the pair has no review in any state; otherwise take
   * the first approved one, remove its rating from the summary and delete
   * it. A pair whose only reviews are unapproved passes the first check and
   * then fails on the null the approved-only lookup returns.
   */
  function UnreviewTxn(db: Db, reviewer: Entity, reviewable: Entity): (r: Result<(Db, bool), ReviewError>)
    ensures !HasReview(db.reviews, reviewer, reviewable, true) ==> r == Failure(ReviewNotFound)
    ensures HasReview(db.reviews, reviewer, reviewable, true) && !HasReview(db.reviews, reviewer, reviewable, false)
      ==> r == Failure(PropertyOfNull)
    ensures HasReview(db.reviews, reviewer, reviewable, false) ==>
      var i := FirstReview(db.reviews, reviewer, reviewable, false).value;
      r == Success((Db(RemoveAt(db.reviews, i),
                       db.summaries[reviewable := Apply(SummaryOf(db.summaries, reviewable),
                                                        Remove(db.reviews[i].rating))],
                       db.nextId), true))
  {
    ViewsNest(db.reviews, reviewer, reviewable);
    if !HasReview(db.reviews, reviewer, reviewable, true) then Failure(ReviewNotFound)
    else match FirstReview(db.reviews, reviewer, reviewable, false)
      case None => Failure(PropertyOfNull)
      case Some(i) =>
        var p := Params(Some(db.reviews[i].rating), None, false, true);
        match SummaryUpdate(db.summaries, reviewable, p)
        case Failure(e) => Failure(e)
        case Success(summaries) => Success((Db(RemoveAt(db.reviews, i), summaries, db.nextId), true))
  }

  /**
   * approve on the review with the given id: false and no change when it is
   * already approved, else mark it approved and add its rating to the
   * reviewable's summary.
   */
  function ApproveTxn(db: Db, id: nat): (r: (Db, bool))
    requires HasId(db.reviews, id)
    ensures var i := IndexOf(db.reviews, id);
      var row := db.reviews[i];
      && (row.approved ==> r == (db, false))
      && (!row.approved ==>
            r.1
            && r.0.reviews == db.reviews[i := row.(approved := true)]
            && r.0.summaries.Keys == db.summaries.Keys + {row.reviewable}
            && r.0.summaries[row.reviewable] == Apply(SummaryOf(db.summaries, row.reviewable), Add(row.rating))
            && (forall e :: e in db.summaries && e != row.reviewable ==> r.0.summaries[e] == db.summaries[e])
            && r.0.nextId == db.nextId)
  {
    var i := IndexOf(db.reviews, id);
    var row := db.reviews[i];
    if row.approved then (db, false)
    else
      var summaries := SummaryUpdate(db.summaries, row.reviewable, Params(Some(row.rating), None, false, false)).value;
      (Db(db.reviews[i := row.(approved := true)], summaries, db.nextId), true)
  }

  /**
   * unapprove on the review with the given id: false and no change when it
   * is not approved, else clear its approval and remove its rating from the
   * reviewable's summary.
   */
  function UnapproveTxn(db: Db, id: nat): (r: (Db, bool))
    requires HasId(db.reviews, id)
    ensures var i := IndexOf(db.reviews, id);
      var row := db.reviews[i];
      && (!row.approved ==> r == (db, false))
      && (row.approved ==>
            r.1
            && r.0.reviews == db.reviews[i := row.(approved := false)]
            && r.0.summaries.Keys == db.summaries.Keys + {row.reviewable}
            && r.0.summaries[row.reviewable] == Apply(SummaryOf(db.summaries, row.reviewable), Remove(row.rating))
            && (forall e :: e in db.summaries && e != row.reviewable ==> r.0.summaries[e] == db.summaries[e])
            && r.0.nextId == db.nextId)
  {
    var i := IndexOf(db.reviews, id);
    var row := db.reviews[i];
    if !row.approved then (db, false)
    else
      var p := Params(Some(row.rating), None, false, true);
      var summaries := SummaryUpdate(db.summaries, row.reviewable, p).value;
      (Db(db.reviews[i := row.(approved := false)], summaries, db.nextId), true)
  }
}
