/**
 * Concrete databases from the package's test fixtures, and what the
 * operations do to them, including the behaviours the approved-only
 * lookup of saveReview and unreview produces for unapproved reviews.
 */
module Scenarios {
  import opened Wrappers
  import opened Summaries
  import opened Reviews
  import opened Transactions
  import opened Invariants

  const Mentor1: Entity := Entity("Mentor", 1)
  const Mentor2: Entity := Entity("Mentor", 2)
  const Mentee1: Entity := Entity("Mentee", 1)
  const Mentee2: Entity := Entity("Mentee", 2)

  /**
   * The CanBeReviewedTest fixture: the mentee's review of the mentor (4.5)
   * and another mentor's (5), both approved, summarised as {2, 4.75}.
   */
  const Fixture: Db := Db(
    [ReviewRow(1, Mentee1, Mentor1, 4.5, None, true),
     ReviewRow(2, Mentor2, Mentor1, 5.0, None, true)],
    map[Mentor1 := Summary(2, 4.75)],
    3)

  lemma FixtureValid()
    ensures Valid(Fixture) && OnePerPair(Fixture.reviews)
  {
    var rows := Fixture.reviews;
    assert rows[1..][1..] == [];
    forall e ensures SummaryOf(Fixture.summaries, e).reviewCount == ApprovedCount(rows, e) {
    }
    assert IsCents(4.75) by {
      assert 4.75 * 100.0 == 475.0;
    }
  }

  /** A new approved review of 4 takes {2, 4.75} to {3, 4.5}. */
  lemma ReviewAddsToSummary()
    ensures var r := ReviewTxn(Fixture, Mentee2, Mentor1, 4.0, None, true);
      r.Success? && r.value.0.summaries[Mentor1] == Summary(3, 4.5)
  {
    assert !HasReview(Fixture.reviews, Mentee2, Mentor1, true);
    assert Total(Summary(2, 4.75)) + 4.0 == 13.5;
    assert IsCents(4.5) by { assert 4.5 * 100.0 == 450.0; }
    Round2OfCents(4.5);
  }

  /** A new unapproved review is stored but leaves {2, 4.75} alone; approving it gives {3, 4.5}, unapproving it {2, 4.75} again. */
  lemma ApprovalMovesSummary()
    ensures var r := ReviewTxn(Fixture, Mentee2, Mentor1, 4.0, Some("nice!!!"), false);
      && r.Success?
      && r.value.0.summaries == Fixture.summaries
      && r.value.1.id == 3 && !r.value.1.approved
      && var db1 := r.value.0;
      && HasId(db1.reviews, 3)
      && var (db2, approved) := ApproveTxn(db1, 3);
      && approved && db2.summaries[Mentor1] == Summary(3, 4.5)
      && HasId(db2.reviews, 3)
      && var (db3, unapproved) := UnapproveTxn(db2, 3);
      && unapproved && db3.summaries[Mentor1] == Summary(2, 4.75)
  {
    assert !HasReview(Fixture.reviews, Mentee2, Mentor1, true);
    var db1 := ReviewTxn(Fixture, Mentee2, Mentor1, 4.0, Some("nice!!!"), false).value.0;
    assert db1.reviews[2].id == 3;
    assert IndexOf(db1.reviews, 3) == 2;
    assert Total(Summary(2, 4.75)) + 4.0 == 13.5;
    assert IsCents(4.5) by { assert 4.5 * 100.0 == 450.0; }
    Round2OfCents(4.5);
    var db2 := ApproveTxn(db1, 3).0;
    IndexOfSameIds(db1.reviews, db2.reviews, 3);
    assert Total(Summary(3, 4.5)) - 4.0 == 9.5;
    assert IsCents(4.75) by { assert 4.75 * 100.0 == 475.0; }
    Round2OfCents(4.75);
  }

  /** unreview of the mentee's 4.5 takes {2, 4.75} to {1, 5.0} and deletes the review. */
  lemma UnreviewRemovesFromSummary()
    ensures var r := UnreviewTxn(Fixture, Mentee1, Mentor1);
      && r.Success?
      && r.value.0.summaries[Mentor1] == Summary(1, 5.0)
      && r.value.0.reviews == [Fixture.reviews[1]]
  {
    assert Matches(Fixture.reviews[0], Mentee1, Mentor1, false);
    assert FirstReview(Fixture.reviews, Mentee1, Mentor1, false) == Some(0);
    assert Total(Summary(2, 4.75)) - 4.5 == 5.0;
    assert IsCents(5.0) by { assert 5.0 * 100.0 == 500.0; }
    Round2OfCents(5.0);
  }

  /** updateReview of the mentee's 4.5 to 4 takes {2, 4.75} to {2, 4.5} and stores the new rating. */
  lemma UpdateReviewEditsSummary()
    ensures var r := UpdateReviewTxn(Fixture, Mentee1, Mentor1, 4.0, Some("nice!!!"));
      && r.Success?
      && r.value.0.summaries[Mentor1] == Summary(2, 4.5)
      && r.value.0.reviews[0].rating == 4.0
      && r.value.0.reviews[0].approved
  {
    assert Matches(Fixture.reviews[0], Mentee1, Mentor1, false);
    assert FirstReview(Fixture.reviews, Mentee1, Mentor1, false) == Some(0);
    assert Total(Summary(2, 4.75)) - 4.5 + 4.0 == 9.0;
    assert IsCents(4.5) by { assert 4.5 * 100.0 == 450.0; }
    Round2OfCents(4.5);
  }

  /** unapprove of the mentee's review takes {2, 4.75} to {1, 5.0}. */
  lemma UnapproveRemovesFromSummary()
    ensures HasId(Fixture.reviews, 1)
    ensures var (db, changed) := UnapproveTxn(Fixture, 1);
      changed && db.summaries[Mentor1] == Summary(1, 5.0) && !db.reviews[0].approved
  {
    assert Fixture.reviews[0].id == 1;
    assert IndexOf(Fixture.reviews, 1) == 0;
    assert Total(Summary(2, 4.75)) - 4.5 == 5.0;
    assert IsCents(5.0) by { assert 5.0 * 100.0 == 500.0; }
    Round2OfCents(5.0);
  }

  /** A second review of the same pair is refused and a missing one cannot be unreviewed. */
  lemma DuplicateAndMissing()
    ensures ReviewTxn(Fixture, Mentee1, Mentor1, 5.0, Some("nice!!!"), true) == Failure(DuplicateReview)
    ensures UnreviewTxn(Fixture, Mentee2, Mentor1) == Failure(ReviewNotFound)
  {
    assert Matches(Fixture.reviews[0], Mentee1, Mentor1, true);
    assert !HasReview(Fixture.reviews, Mentee2, Mentor1, true);
  }

  /**
   * updateReviewSummary is public: a direct call adds a rating to the
   * fixture's summary without any review behind it, so review_count (3)
   * no longer matches the approved reviews (2).
   */
  lemma DirectSummaryUpdateBreaksCount()
    ensures var r := SummaryUpdate(Fixture.summaries, Mentor1, Params(Some(4.0), None, false, false));
      && r.Success?
      && r.value[Mentor1].reviewCount == 3
      && !Valid(Db(Fixture.reviews, r.value, Fixture.nextId))
  {
    var r := SummaryUpdate(Fixture.summaries, Mentor1, Params(Some(4.0), None, false, false));
    var rows := Fixture.reviews;
    assert rows[1..][1..] == [];
    assert ApprovedCount(rows, Mentor1) == 2;
    assert SummaryOf(r.value, Mentor1).reviewCount == 3;
  }

  /** The fixture with the second mentee's review of 4 added unapproved. */
  function WithUnapproved(): (db: Db)
    ensures db.reviews == Fixture.reviews + [ReviewRow(3, Mentee2, Mentor1, 4.0, None, false)]
    ensures db.summaries == Fixture.summaries && db.nextId == 4
  {
    assert !HasReview(Fixture.reviews, Mentee2, Mentor1, true);
    ReviewTxn(Fixture, Mentee2, Mentor1, 4.0, None, false).value.0
  }

  /**
   * updateReview of an unapproved review: its lookup cannot see the row, so
   * a second, unapproved row is inserted for the pair, and Edit(0, 3) on
   * {2, 4.75} moves the average to 6.25, above every rating given.
   */
  lemma UpdateOfUnapprovedDuplicates()
    ensures var r := UpdateReviewTxn(WithUnapproved(), Mentee2, Mentor1, 3.0, None);
      && r.Success?
      && |r.value.0.reviews| == 4
      && !OnePerPair(r.value.0.reviews)
      && r.value.0.summaries[Mentor1] == Summary(2, 6.25)
  {
    var db := WithUnapproved();
    assert FirstReview(db.reviews, Mentee2, Mentor1, false).None?;
    var rows := UpdateReviewTxn(db, Mentee2, Mentor1, 3.0, None).value.0.reviews;
    assert rows[2].reviewer == rows[3].reviewer && rows[2].reviewable == rows[3].reviewable;
    assert Total(Summary(2, 4.75)) - 0.0 + 3.0 == 12.5;
    assert IsCents(6.25) by { assert 6.25 * 100.0 == 625.0; }
    Round2OfCents(6.25);
  }

  /** unreview of an unapproved review passes the existence check, then fails on the hidden row. */
  lemma UnreviewOfUnapprovedFails()
    ensures UnreviewTxn(WithUnapproved(), Mentee2, Mentor1) == Failure(PropertyOfNull)
  {
    var db := WithUnapproved();
    assert Matches(db.reviews[2], Mentee2, Mentor1, true);
    assert FirstReview(db.reviews, Mentee2, Mentor1, false).None?;
  }

  /** updateReview for a reviewable without a summary row fails and is rolled back. */
  lemma UpdateWithoutSummaryFails()
    ensures UpdateReviewTxn(Initial, Mentee1, Mentor1, 4.0, None) == Failure(NullReviewCount)
  {
  }
}
