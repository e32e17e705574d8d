# laravel-review in Dafny

A model of the core of the `fajarwz/laravel-review` package, a Laravel
package for reviews and ratings. A reviewer model (`CanReview`) reviews a
reviewable model (`CanBeReviewed`) with a rating and optional content. The
review may be approved or not. Each reviewable keeps one
`review_summaries` row with `review_count` and `average_rating`. That row is
not recomputed from the reviews. Instead, every operation updates it in
place:

- a new approved review adds its rating;
- an update edits the old rating into the new one;
- an unreview or an unapproval removes the rating;
- an approval adds it.

Every new average is rounded to two decimals (`number_format($x, 2)`).

The project has these files:

- `wrappers.dfy`: `Option` and `Result`.
- `summaries.dfy` (module `Summaries`): the summary arithmetic of the
  `CanBeReviewed` trait.
  - `Round2` is `number_format(x, 2)`.
  - `CalculateAverageRating` and `Apply` cover the three updates.
  - `Dispatch` is the choice `updateReviewSummary` makes from its params.
  - The class `SummaryRow` is the `ReviewSummary` instance whose attributes
    `addNewReview`, `decrementReview` and `updateExistingReview` assign in
    place.
  - Lemmas give the rounding error an update adds, the error after N
    additions, and the round trips.
- `reviews.dfy` (module `Reviews`): the reviews table as a sequence of rows
  in id order.
  - The lookups `hasGivenReview`/`hasReceivedReview` and
    `getGivenReview`/`getReceivedReview`, in the approved-only default view
    or with `withUnapproved`.
  - The approved count of a reviewable.
- `transactions.dfy` (module `Transactions`): each operation is one
  function from a database state to a result. The result is the committed
  state plus the return value, or the error that rolled the transaction
  back. The operations are `updateReviewSummary`, `saveReview`, `review`,
  `updateReview`, `unreview`, `approve` and `unapprove`.
- `invariants.dfy` (module `Invariants`): what the operations preserve and
  what pairs of them undo.
- `store.dfy` (module `ReviewStore`): the class `Store`. Its fields are the
  two tables and the id counter. Its methods perform each operation
  statement by statement, as the PHP does, and roll back to the saved state
  when a statement throws.
  - `Review`, `UpdateReview`, `Unreview`, `Approve` and `Unapprove` are
    each proved to commit exactly their transaction function's result, or
    nothing, and to keep `Valid`.
  - `SaveReview` is proved to commit `SaveReviewTxn`'s result or nothing.
    It is not proved to keep `Valid`: only the duplicate check in `review`
    keeps a save from counting a second approved review of a pair.
  - `UpdateReviewSummary` and `Rollback` are steps inside those methods.
    On failure, `UpdateReviewSummary` leaves the just-created summary row
    for the rollback.
- `scenarios.dfy` (module `Scenarios`): the test fixtures and their
  expected summaries, and the behaviours described below.

Main invariant (`Invariants.Valid`):

- every reviewable's `review_count` equals its number of approved reviews;
- every average has two decimals, and is 0 when the count is;
- ids increase along the table.

`review`, `updateReview`, `unreview`, `approve` and `unapprove` each
preserve it. A direct call of the public `updateReviewSummary` does not:
`Scenarios.DirectSummaryUpdateBreaksCount` shows one. Averages are tracked only up to rounding:

- each update moves the stored total (average × count) at most
  count × 0.005 from the exact one;
- N approved reviews from an empty summary leave the total within
  N(N+1)/400 of the sum of the ratings.

The global approved-only scope of `Review` produces some behaviours that the
model reproduces as written. Each one is shown in `Scenarios`:

- **`updateReview` of an unapproved review.** `saveReview` looks the review
  up with `firstOrNew` under the approved-only scope, so it cannot see the
  unapproved row. It inserts a second, unapproved row for the same pair.
  The summary still gets `Edit(0, newRating)` without a count change, so on
  `{2, 4.75}` an update to 3 gives an average of 6.25.
  - `Invariants.UpdateReviewKeepsOnePerPair` needs the pair's review, if
    there is one, to be approved.
- **`unreview` of an unapproved review.** The review passes the any-state
  existence check. The approved-only `first()` then returns null. Reading
  `->rating` of null is only a warning in PHP 8, but Laravel's error
  handler turns it into an `ErrorException`. Without that handler,
  `$review->delete()` on null raises an `Error` after the summary is
  saved. Either way the transaction rolls back (`PropertyOfNull`).
- **A summary row that does not exist yet.** `updateReviewSummary`'s
  `firstOrCreate([])` inserts it without reading the column defaults back,
  so its attributes are null in memory.
  - For an add, null arithmetic acts as 0. For a remove, `null > 1` is
    false, so the row is reset to {0, 0}.
  - An edit passes the null `review_count` to
    `calculateAverageRating(float, int)`. That is a `TypeError`, and the
    transaction rolls back (`NullReviewCount`). It happens when
    `updateReview` targets a reviewable without a summary.

`first()` without an order is taken to return the row of lowest id.

## Model

| member | source | states |
|---|---|---|
| `Summaries.Round2` | src/Traits/CanBeReviewed.php:159 | the result has two decimals and lies within half a hundredth of x, rounding halves away from zero |
| `Summaries.Round2Unique` | src/Traits/CanBeReviewed.php:159 | for x ≥ 0 the rounding is the one two-decimal value in (x − 0.005, x + 0.005] |
| `Summaries.Round2OfCents` | src/Traits/CanBeReviewed.php:159 | a value that already has two decimals is left unchanged |
| `Summaries.CalculateAverageRating` | src/Traits/CanBeReviewed.php:153-160 | 0.0 for a count ≤ 0; otherwise a two-decimal value m in (q − 0.005, q + 0.005] for q = total / count ≥ 0 (in [q − 0.005, q + 0.005) for q < 0), which by Round2Unique is unique for q ≥ 0 |
| `Summaries.Apply` | src/Traits/CanBeReviewed.php:115-151 | Add raises the count by exactly 1; Remove lowers it by 1, or resets to 0 when it is ≤ 1; Edit keeps it; the average always has two decimals and is 0 when the count is 0 |
| `Summaries.ApplyTracksTotal` | src/Traits/CanBeReviewed.php:115-151 | after any update the stored total (average × count) is within count × 0.005 of the exact total |
| `Summaries.AddRemoveFromEmpty` | src/Traits/CanBeReviewed.php:115-151 | from {0, 0}, adding a rating and removing it gives {0, 0} |
| `Summaries.AddThenRemove` | src/Traits/CanBeReviewed.php:115-151 | adding then removing a rating restores a summary of ≥ 1 review when the addition needed no rounding |
| `Summaries.RemoveThenAdd` | src/Traits/CanBeReviewed.php:115-151 | removing then adding a rating restores a summary of ≥ 2 reviews when the removal needed no rounding |
| `Summaries.EditThenRevert` | src/Traits/CanBeReviewed.php:132-140 | editing a rating and editing it back restores the summary when the edit needed no rounding |
| `Summaries.AddAllTracksSum` | src/Traits/CanBeReviewed.php:142-151 | after N additions the count is c + N and the total is within Drift(c, N) = (2cN + N(N+1))/400 of the exact total |
| `Summaries.Dispatch` | src/Traits/CanBeReviewed.php:95-110 | the update is Remove iff decrement is set, Edit iff isUpdate is set without decrement, and Add otherwise |
| `Summaries.DispatchDefaults` | src/Traits/CanBeReviewed.php:95-98 | the update carries the given rating and, for an Edit, the given old rating; a missing one counts as 0.0 |
| `Summaries.SummaryRow.Load` | src/Traits/CanBeReviewed.php:100 | a summary row read from the table holds its stored columns |
| `Summaries.SummaryRow.Created` | src/Traits/CanBeReviewed.php:100 | a row firstOrCreate has just inserted holds the defaults {0, 0} with its attributes not read back |
| `Summaries.SummaryRow.AddNewReview` | src/Traits/CanBeReviewed.php:142-151 | the row's new value is Add applied to its old value |
| `Summaries.SummaryRow.DecrementReview` | src/Traits/CanBeReviewed.php:115-130 | the row's new value is Remove applied to its old value |
| `Summaries.SummaryRow.UpdateExistingReview` | src/Traits/CanBeReviewed.php:132-140 | on a row read from the table the new value is Edit applied to the old one; on a just-created row the call fails and assigns nothing |
| `Reviews.FirstReview` | src/Traits/CanReview.php:54-65 | the index of the first row of the pair visible in the chosen view, with no earlier such row; None exactly when no row of the pair is visible (getReceivedReview, src/Traits/CanBeReviewed.php:52-62, is the same query) |
| `Reviews.HasReview` | src/Traits/CanReview.php:36-47 | true iff some row of the pair is visible in the chosen view (hasReceivedReview, src/Traits/CanBeReviewed.php:35-45, is the same query) |
| `Reviews.ViewsNest` | src/Models/Review.php:34-37 | a review visible in the approved-only view is visible with withUnapproved; with none in any state the approved-only lookup finds none |
| `Reviews.Scoped` | src/Models/Review.php:26-37 | withUnapproved sees every row; the default scope sees exactly the approved rows |
| `Reviews.RemoveAt` | src/Traits/CanReview.php:128 | `delete()` of the i-th row: the table is one row shorter, the rows before i stay in place and the rows after it move down by one |
| `Reviews.ScopedLookup` | src/Models/Review.php:26-37 | the default-view lookup answers as the any-state lookup on the approved rows |
| `Transactions.SummaryUpdate` | src/Traits/CanBeReviewed.php:93-113 | fails exactly for an Edit of a reviewable with no summary row; otherwise the reviewable's row becomes the dispatched update of its old value (or of {0, 0}) and no other row changes |
| `Transactions.Fill` | src/Traits/CanReview.php:150 | the row keeps its id and takes the reviewer, reviewable, rating and content of the data; its approval changes only when the data sets one |
| `Transactions.NewRow` | src/Traits/CanReview.php:146-151 | the row saved under the next id is what `fill` gives on any new, unapproved model with that id |
| `Transactions.GetOldRating` | src/Traits/CanReview.php:159-167 | 0.0 for a new review; for an update the found review's rating, or null when `firstOrNew` found none |
| `Transactions.SaveReviewTxn` | src/Traits/CanReview.php:139-182 | the saved row carries the data, keeps its approval unless the data sets one, replaces the approved review found or is appended under the next id; the summary gets Add, or Edit from the found rating (0.0 if none), unless the data leaves the review unapproved; fails exactly for an update of a reviewable with no summary |
| `Transactions.ReviewTxn` | src/Traits/CanReview.php:72-89 | fails with DuplicateReview iff the pair has a review in any state; otherwise appends the new review under the next id and adds its rating to the summary iff it is approved |
| `Transactions.UpdateReviewTxn` | src/Traits/CanReview.php:96-108 | fails iff the reviewable has no summary; rewrites the approved review with an Edit of its old rating, or appends an unapproved review with an Edit from 0.0 |
| `Transactions.UnreviewTxn` | src/Traits/CanReview.php:115-132 | ReviewNotFound with no review in any state; PropertyOfNull when all of the pair's reviews are unapproved; otherwise deletes the first approved review, removes its rating from the summary and returns true |
| `Transactions.ApproveTxn` | src/Models/Review.php:56-74 | false and no change for an approved review; otherwise marks it approved, adds its rating to its reviewable's summary and leaves every other summary alone |
| `Transactions.UnapproveTxn` | src/Models/Review.php:81-100 | false and no change for an unapproved review; otherwise clears its approval, removes its rating from the summary and leaves every other summary alone |
| `Invariants.InitialValid` | database/migrations/0001_01_01_000000_create_review_summaries_table.php:17-18 | empty tables, where every summary reads as the defaults {0, 0}, satisfy the invariant |
| `Invariants.ReviewKeepsValid` | src/Traits/CanReview.php:72-89 | review preserves count = approved reviews, two-decimal averages and increasing ids |
| `Invariants.UpdateReviewKeepsValid` | src/Traits/CanReview.php:96-108 | updateReview preserves the invariant, whichever row it writes |
| `Invariants.UnreviewKeepsValid` | src/Traits/CanReview.php:115-132 | unreview preserves the invariant |
| `Invariants.ApproveKeepsValid` | src/Models/Review.php:56-74 | approve preserves the invariant |
| `Invariants.UnapproveKeepsValid` | src/Models/Review.php:81-100 | unapprove preserves the invariant |
| `Invariants.ReviewKeepsOnePerPair` | src/Traits/CanReview.php:74-76 | review never creates a second review of a pair |
| `Invariants.UpdateReviewKeepsOnePerPair` | src/Traits/CanReview.php:139-157 | updateReview keeps one review per pair when the pair's review, if any, is approved |
| `Invariants.UnreviewRemovesPair` | src/Traits/CanReview.php:115-132 | with one review per pair, after unreview the pair has no review in any state |
| `Invariants.ApprovalKeepsOnePerPair` | src/Models/Review.php:56-100 | approve and unapprove keep one review per pair |
| `Invariants.ApproveIdempotent` | src/Models/Review.php:58-60 | a second approve returns false and changes nothing |
| `Invariants.UnapproveIdempotent` | src/Models/Review.php:83-85 | a second unapprove returns false and changes nothing |
| `Invariants.ApproveThenUnapprove` | src/Models/Review.php:56-100 | approve then unapprove restores the reviews and every summary, when the summary was empty or the addition needed no rounding |
| `Invariants.UnapproveThenApprove` | src/Models/Review.php:56-100 | unapprove then approve restores the reviews and every summary, when ≥ 2 reviews were counted and the removal needed no rounding |
| `Invariants.ApproveThenUnapproveCounts` | src/Models/Review.php:56-100 | approve then unapprove of an unapproved review always restores the reviews, the id counter and every review_count |
| `Invariants.UnapproveThenApproveCounts` | src/Models/Review.php:56-100 | in a consistent database, unapprove then approve of an approved review always restores the reviews, the id counter and every review_count, a summary of one review included |
| `Invariants.ReviewThenUnreview` | src/Traits/CanReview.php:72-132 | an approved review then its unreview restores the reviews and every summary under the same conditions |
| `Invariants.ReviewAllSummaries` | src/Traits/CanReview.php:139-157 | N reviews by distinct new reviewers all succeed; the reviewable's summary gets the N additions in order and no other summary changes |
| `Invariants.ReviewAllCount` | src/Traits/CanReview.php:139-157 | from no summary, N such reviews give count N and a total within N(N+1)/400 of the ratings' sum |
| `ReviewStore.Store.Rollback` | src/Traits/CanReview.php:141-156 | `DB::transaction` rolling back restores the tables and the id counter saved when the transaction began |
| `ReviewStore.Store.UpdateReviewSummary` | src/Traits/CanBeReviewed.php:93-113 | fetch-or-create, dispatch and save end in SummaryUpdate's result; on failure only the just-created row is left, for the rollback |
| `ReviewStore.Store.SaveReview` | src/Traits/CanReview.php:139-157 | commits SaveReviewTxn's state and returns its row, or rolls back to the state before and raises its error |
| `ReviewStore.Store.Review` | src/Traits/CanReview.php:72-89 | commits ReviewTxn or changes nothing; keeps the store valid |
| `ReviewStore.Store.UpdateReview` | src/Traits/CanReview.php:96-108 | commits UpdateReviewTxn or changes nothing; keeps the store valid |
| `ReviewStore.Store.Unreview` | src/Traits/CanReview.php:115-132 | commits UnreviewTxn or changes nothing; keeps the store valid |
| `ReviewStore.Store.Approve` | src/Models/Review.php:56-74 | ends in ApproveTxn's state and result; keeps the store valid |
| `ReviewStore.Store.Unapprove` | src/Models/Review.php:81-100 | ends in UnapproveTxn's state and result; keeps the store valid |
| `Scenarios.FixtureValid` | tests/CanBeReviewedTest.php:12-47 | the fixture (4.5 and 5 approved, summary {2, 4.75}) satisfies the invariant |
| `Scenarios.ReviewAddsToSummary` | tests/CanBeReviewedTest.php:192-205 | a new approved review of 4 takes {2, 4.75} to {3, 4.5} |
| `Scenarios.UnreviewRemovesFromSummary` | tests/CanBeReviewedTest.php:207-219 | unreview of the 4.5 takes {2, 4.75} to {1, 5.0} |
| `Scenarios.UpdateReviewEditsSummary` | tests/CanBeReviewedTest.php:221-233 | updating the 4.5 to 4 takes {2, 4.75} to {2, 4.5} |
| `Scenarios.ApprovalMovesSummary` | tests/CanBeReviewedTest.php:235-250 | an unapproved review leaves {2, 4.75}; approving it gives {3, 4.5} and unapproving it {2, 4.75} |
| `Scenarios.UnapproveRemovesFromSummary` | tests/CanBeReviewedTest.php:252-264 | unapproving the 4.5 takes {2, 4.75} to {1, 5.0} |
| `Scenarios.DuplicateAndMissing` | tests/CanReviewTest.php:171-220 | a second review of a pair is DuplicateReview; unreview of a missing review is ReviewNotFound |
| `Scenarios.DirectSummaryUpdateBreaksCount` | src/Traits/CanBeReviewed.php:93-113 | a direct call of the public updateReviewSummary adds a count with no approved review behind it, so the invariant no longer holds |
| `Scenarios.UpdateOfUnapprovedDuplicates` | src/Traits/CanReview.php:142-146 | updateReview of an unapproved review inserts a second row for the pair and moves {2, 4.75} to {2, 6.25} |
| `Scenarios.UnreviewOfUnapprovedFails` | src/Traits/CanReview.php:117-124 | unreview of an unapproved review fails with PropertyOfNull |
| `Scenarios.UpdateWithoutSummaryFails` | src/Traits/CanBeReviewed.php:100-106 | updateReview of a reviewable without a summary fails with NullReviewCount |

## Left out

- PHP floats and `number_format`'s string result are not modelled. Ratings
  and averages are exact reals, and `Round2` rounds them exactly. The ','
  thousands separator `number_format` writes for averages ≥ 1000, which
  would not read back as a number, is not modelled.
- The `decimal(9, 2)` column's range is not modelled. Its two decimals
  appear only as `IsCents`.
- Timestamps are not modelled. `approved_at` is the boolean `approved`, and
  `isApproved` (src/Models/Review.php:46-49) is that field. `created_at`
  and `updated_at` are not modelled.
- Morph types are not modelled. A model's `get_class` and `getMorphClass`
  are taken to be the same tag, `Entity.kind`.
- Transaction isolation, locking and concurrent writers are not modelled.
  Each transaction is one atomic step.
- Only `first()` in id order is modelled. The ordered queries
  (`latestReceivedReviews`, `topRatedReceivedReviews`) and the collection
  queries (`givenReviews`, `receivedReviews`) are not.
- `Review` instances that are stale, held after their row was deleted or
  changed, are not modelled. `approve`/`unapprove` take a review id and
  require that row to exist.
- The service provider, the legacy duplicate models, the factories and the
  exception classes are not modelled. The exceptions are `ReviewError`
  values.
- `Summaries.AddThenRemove`, `Summaries.RemoveThenAdd` and
  `Summaries.EditThenRevert` hold only when the first update needed no
  rounding, because a rounded average cannot in general be undone.
- `Invariants.UnapproveThenApprove` does not cover a summary of one
  review. Removing that review resets the summary to {0, 0}, and adding
  the rating back gives its rounded value, not the stored average.
- `Invariants.ApproveThenUnapprove` restores the averages only when the
  summary was empty or the addition needed no rounding. A rounded average
  cannot in general be undone. The reviews, the id counter and the counts
  are restored unconditionally, in `Invariants.ApproveThenUnapproveCounts`.
- `ReviewStore.Store.Rollback` also restores the id counter. MySQL/InnoDB
  and PostgreSQL do not roll back auto-increment counters, so on those
  engines a failed `updateReview` still uses up an id. The model does not
  capture this.
- The stored average is not always the rounded mean of the approved
  ratings, and the model does not claim it is. Only the drift bounds hold.
  `Scenarios.UpdateOfUnapprovedDuplicates` reaches an average of 6.25
  when the approved ratings are 4.5 and 5.
- A direct call of the public `updateReviewSummary`
  (src/Traits/CanBeReviewed.php:93) is outside the invariant. It changes a
  summary without changing any review, and the model promises nothing
  about the counts after it.
