/**
 * The reviews table and the lookups the CanReview and CanBeReviewed
 * traits run on it. Rows are kept in id order, so `first()` of a query is
 * the matching row of lowest index. The Review model's global scope hides
 * unapproved rows; `withUnapproved` lifts it.
 */
module Reviews {
  import opened Wrappers

  /** A polymorphic reference (morph type and key) to a reviewer or a reviewable. */
  datatype Entity = Entity(kind: string, key: int)

  /** One reviews row; `approved` stands for `approved_at` being set. */
  datatype ReviewRow = ReviewRow(
    id: nat,
    reviewer: Entity,
    reviewable: Entity,
    rating: real,
    content: Option<string>,
    approved: bool)

  /** The row is reviewer's review of reviewable and is visible in the chosen view. */
  predicate Matches(row: ReviewRow, reviewer: Entity, reviewable: Entity, includeUnapproved: bool) {
    row.reviewer == reviewer && row.reviewable == reviewable && (includeUnapproved || row.approved)
  }

  /**
   * getGivenReview / getReceivedReview: `first()` of the rows of the pair in
   * the chosen view, as an index into the table.
   */
  function FirstReview(rows: seq<ReviewRow>, reviewer: Entity, reviewable: Entity,
                       includeUnapproved: bool): (r: Option<nat>)
    ensures r.Some? ==> r.value < |rows| && Matches(rows[r.value], reviewer, reviewable, includeUnapproved)
    ensures r.Some? ==> forall j :: 0 <= j < r.value ==> !Matches(rows[j], reviewer, reviewable, includeUnapproved)
    ensures r.None? ==> forall j :: 0 <= j < |rows| ==> !Matches(rows[j], reviewer, reviewable, includeUnapproved)
    decreases |rows|
  {
    if rows == [] then None
    else if Matches(rows[0], reviewer, reviewable, includeUnapproved) then Some(0)
    else match FirstReview(rows[1..], reviewer, reviewable, includeUnapproved)
      case None => None
      case Some(i) => Some(i + 1)
  }

  /** hasGivenReview / hasReceivedReview: `exists()` on the same query. */
  function HasReview(rows: seq<ReviewRow>, reviewer: Entity, reviewable: Entity,
                     includeUnapproved: bool): (b: bool)
    ensures b <==> exists j :: 0 <= j < |rows| && Matches(rows[j], reviewer, reviewable, includeUnapproved)
  {
    FirstReview(rows, reviewer, reviewable, includeUnapproved).Some?
  }

  /** The pair has a review in a table with one row appended iff it had one before or the new row is one. */
  lemma HasReviewAppend(rows: seq<ReviewRow>, row: ReviewRow, reviewer: Entity, reviewable: Entity,
                        includeUnapproved: bool)
    ensures HasReview(rows + [row], reviewer, reviewable, includeUnapproved)
      <==> HasReview(rows, reviewer, reviewable, includeUnapproved) || Matches(row, reviewer, reviewable, includeUnapproved)
  {
    var t := rows + [row];
    if HasReview(t, reviewer, reviewable, includeUnapproved) {
      var j := FirstReview(t, reviewer, reviewable, includeUnapproved).value;
      if j < |rows| {
        assert Matches(rows[j], reviewer, reviewable, includeUnapproved);
      }
    }
    if HasReview(rows, reviewer, reviewable, includeUnapproved) {
      var j := FirstReview(rows, reviewer, reviewable, includeUnapproved).value;
      assert Matches(t[j], reviewer, reviewable, includeUnapproved);
    }
    if Matches(row, reviewer, reviewable, includeUnapproved) {
      assert t[|rows|] == row;
    }
  }

  /** When only the appended row is the pair's, the lookup finds it at the end of the table. */
  lemma FirstReviewAppended(rows: seq<ReviewRow>, row: ReviewRow, reviewer: Entity, reviewable: Entity,
                            includeUnapproved: bool)
    requires !HasReview(rows, reviewer, reviewable, includeUnapproved)
    requires Matches(row, reviewer, reviewable, includeUnapproved)
    ensures FirstReview(rows + [row], reviewer, reviewable, includeUnapproved) == Some(|rows|)
  {
    var t := rows + [row];
    HasReviewAppend(rows, row, reviewer, reviewable, includeUnapproved);
    var j := FirstReview(t, reviewer, reviewable, includeUnapproved).value;
    assert !(j < |rows|);
  }

  /** An approved review is visible in both views; a visible one is visible with unapproved included. */
  lemma ViewsNest(rows: seq<ReviewRow>, reviewer: Entity, reviewable: Entity)
    ensures HasReview(rows, reviewer, reviewable, false) ==> HasReview(rows, reviewer, reviewable, true)
    ensures !HasReview(rows, reviewer, reviewable, true) ==> FirstReview(rows, reviewer, reviewable, false).None?
  {
    if HasReview(rows, reviewer, reviewable, false) {
      var j := FirstReview(rows, reviewer, reviewable, false).value;
      assert Matches(rows[j], reviewer, reviewable, true);
    }
  }

  /**
   * The rows a query sees: all of them with `withUnapproved`, only the
   * approved ones under the default global scope.
   */
  function Scoped(rows: seq<ReviewRow>, includeUnapproved: bool): (r: seq<ReviewRow>)
    ensures includeUnapproved ==> r == rows
    ensures forall row :: row in r <==> row in rows && (includeUnapproved || row.approved)
    ensures |r| <= |rows|
    decreases |rows|
  {
    if includeUnapproved || rows == [] then rows
    else (if rows[0].approved then [rows[0]] else []) + Scoped(rows[1..], false)
  }

  /** The default-view lookup is the any-state lookup on the approved rows. */
  lemma {:induction false} ScopedLookup(rows: seq<ReviewRow>, reviewer: Entity, reviewable: Entity)
    ensures HasReview(rows, reviewer, reviewable, false) == HasReview(Scoped(rows, false), reviewer, reviewable, true)
  {
    var s := Scoped(rows, false);
    if HasReview(rows, reviewer, reviewable, false) {
      var j := FirstReview(rows, reviewer, reviewable, false).value;
      assert rows[j] in s;
      var k :| 0 <= k < |s| && s[k] == rows[j];
      assert Matches(s[k], reviewer, reviewable, true);
    }
    if HasReview(s, reviewer, reviewable, true) {
      var k := FirstReview(s, reviewer, reviewable, true).value;
      assert s[k] in rows;
      var j :| 0 <= j < |rows| && rows[j] == s[k];
      assert Matches(rows[j], reviewer, reviewable, false);
    }
  }

  /** 1 when the row is an approved review of e, else 0. */
  function Counted(row: ReviewRow, e: Entity): nat {
    if row.approved && row.reviewable == e then 1 else 0
  }

  /** The number of approved reviews of e: what e's review_count should hold. */
  function ApprovedCount(rows: seq<ReviewRow>, e: Entity): (n: nat)
    ensures n <= |rows|
    decreases |rows|
  {
    if rows == [] then 0 else Counted(rows[0], e) + ApprovedCount(rows[1..], e)
  }

  lemma {:induction false} ApprovedCountAppend(rows: seq<ReviewRow>, row: ReviewRow, e: Entity)
    ensures ApprovedCount(rows + [row], e) == ApprovedCount(rows, e) + Counted(row, e)
    decreases |rows|
  {
    if rows != [] {
      assert (rows + [row])[1..] == rows[1..] + [row];
      ApprovedCountAppend(rows[1..], row, e);
    }
  }

  lemma {:induction false} ApprovedCountUpdate(rows: seq<ReviewRow>, i: nat, row: ReviewRow, e: Entity)
    requires i < |rows|
    ensures ApprovedCount(rows[i := row], e) + Counted(rows[i], e) == ApprovedCount(rows, e) + Counted(row, e)
    decreases |rows|
  {
    if i > 0 {
      assert rows[i := row][1..] == rows[1..][i - 1 := row];
      ApprovedCountUpdate(rows[1..], i - 1, row, e);
    }
  }

  /** The table without its i-th row (a `delete()`). */
  function RemoveAt(rows: seq<ReviewRow>, i: nat): (r: seq<ReviewRow>)
    requires i < |rows|
    ensures |r| == |rows| - 1
    ensures forall k :: 0 <= k < i ==> r[k] == rows[k]
    ensures forall k :: i <= k < |r| ==> r[k] == rows[k + 1]
  {
    rows[..i] + rows[i + 1..]
  }

  lemma {:induction false} ApprovedCountRemove(rows: seq<ReviewRow>, i: nat, e: Entity)
    requires i < |rows|
    ensures ApprovedCount(RemoveAt(rows, i), e) + Counted(rows[i], e) == ApprovedCount(rows, e)
    decreases |rows|
  {
    if i > 0 {
      assert RemoveAt(rows, i)[1..] == RemoveAt(rows[1..], i - 1);
      ApprovedCountRemove(rows[1..], i - 1, e);
    } else {
      assert RemoveAt(rows, i) == rows[1..];
    }
  }

  /** At most one row per (reviewer, reviewable) pair, whatever its approval state. */
  predicate OnePerPair(rows: seq<ReviewRow>) {
    forall i, j :: 0 <= i < j < |rows| ==>
      !(rows[i].reviewer == rows[j].reviewer && rows[i].reviewable == rows[j].reviewable)
  }

  /** Ids increase along the table and stay below the next id to assign. */
  predicate IdsBelow(rows: seq<ReviewRow>, nextId: nat) {
    (forall i, j :: 0 <= i < j < |rows| ==> rows[i].id < rows[j].id)
    && (forall i :: 0 <= i < |rows| ==> rows[i].id < nextId)
  }

  predicate HasId(rows: seq<ReviewRow>, id: nat) {
    exists k :: 0 <= k < |rows| && rows[k].id == id
  }

  /** The position of the row with the given id (the first one, should ids repeat). */
  function IndexOf(rows: seq<ReviewRow>, id: nat): (i: nat)
    requires HasId(rows, id)
    ensures i < |rows| && rows[i].id == id
    ensures forall k :: 0 <= k < i ==> rows[k].id != id
    decreases |rows|
  {
    if rows[0].id == id then 0
    else
      assert HasId(rows[1..], id) by {
        var k :| 0 <= k < |rows| && rows[k].id == id;
        assert rows[1..][k - 1].id == id;
      }
      1 + IndexOf(rows[1..], id)
  }

  /** Changing rows but not their ids leaves every row where it was found. */
  lemma IndexOfSameIds(rows: seq<ReviewRow>, rows': seq<ReviewRow>, id: nat)
    requires HasId(rows, id) && |rows'| == |rows|
    requires forall k :: 0 <= k < |rows| ==> rows'[k].id == rows[k].id
    ensures HasId(rows', id) && IndexOf(rows', id) == IndexOf(rows, id)
  {
    var i := IndexOf(rows, id);
    assert rows'[i].id == id;
    var i' := IndexOf(rows', id);
    assert !(i' < i) && !(i < i');
  }
}
