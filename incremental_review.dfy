/**
 * The review form of components/ReviewForm.js: validation in a fixed order, then one
 * transaction that writes the reviewer's review document and folds the new scores into the
 * faculty's running averages. The count is always incremented, also when the reviewer already
 * had a review, so a resubmission is counted twice.
 */
module IncrementalReview {
  import opened Wrappers
  import opened JsStrings
  import opened Store

  const LoginRequired := "Login required to submit review"
  const RateAllSections := "Please rate all sections"
  const CommentTooShort := "Please write at least 10 characters in review"
  const SubmitFailed := "Failed to submit review. Try again."

  /**
   * The checks `submit` makes before writing, in their order: the error it shows, or `None` when
   * the submission goes ahead.
   */
  function Validate(user: Option<Uid>, ratings: Ratings, comment: string): (e: Option<string>)
    ensures e.None? <==> user.Some? && AllRated(ratings) && CommentValid(comment)
    ensures user.None? ==> e == Some(LoginRequired)
    ensures user.Some? && !AllRated(ratings) ==> e == Some(RateAllSections)
    ensures user.Some? && AllRated(ratings) && !CommentValid(comment) ==> e == Some(CommentTooShort)
  {
    if user.None? then Some(LoginRequired)
    else if !AllRated(ratings) then Some(RateAllSections)
    else if !CommentValid(comment) then Some(CommentTooShort)
    else None
  }

  /** `prev.reviewCount || 0` */
  function CountOf(doc: FacultyDoc): nat {
    doc.reviewCount.GetOr(0)
  }

  /** The stored average of a metric, 0 when the field is missing (`oldAvg = 0`). */
  function AvgOr0(doc: FacultyDoc, m: Metric): real {
    if m in doc.avgs then doc.avgs[m] else 0.0
  }

  /** The faculty document read in the transaction, `{}` when it does not exist. */
  function PrevDoc(db: Db, fid: FacultyId): FacultyDoc {
    if fid in db.faculties then db.faculties[fid] else EmptyDoc
  }

  lemma DivMul(a: real, x: real, y: real)
    requires y > 0.0 && a == x / y
    ensures a * y == x
  {
  }

  lemma SumSubst(a: real, p: real, q: real, v: real, d: real)
    requires d > 0.0 && p == q && a == (p + v) / d
    ensures a == (q + v) / d
  {
  }

  lemma MulBounds(x: real, c: real)
    requires c >= 0.0 && 1.0 <= x <= 5.0
    ensures c <= x * c <= 5.0 * c
  {
  }

  lemma SumBounds(p: real, q: real, v: real, c: real)
    requires c <= p <= 5.0 * c && p == q && 1.0 <= v <= 5.0
    ensures c + 1.0 <= q + v <= 5.0 * (c + 1.0)
  {
  }

  lemma QuotientBounds(a: real, x: real, d: real)
    requires d > 0.0 && a == x / d && d <= x <= 5.0 * d
    ensures 1.0 <= a <= 5.0
  {
  }

  /** `avg(oldAvg, val)`: `(oldAvg * count + val) / (count + 1)`. */
  function RunningAvg(oldAvg: real, count: nat, val: real): real {
    (oldAvg * count as real + val) / (count + 1) as real
  }

  /**
   * If the old average is the mean of the previous `count` values, the new one is the mean of
   * those values and the new value; the first value folded in becomes the average itself.
   */
  lemma RunningAvgIsMean(oldAvg: real, count: nat, oldSum: real, val: real)
    requires oldAvg * count as real == oldSum
    ensures RunningAvg(oldAvg, count, val) * (count + 1) as real == oldSum + val
    ensures count == 0 ==> RunningAvg(oldAvg, count, val) == val
  {
    var c := count as real;
    var a := RunningAvg(oldAvg, count, val);
    SumSubst(a, oldAvg * c, oldSum, val, c + 1.0);
    DivMul(a, oldSum + val, c + 1.0);
  }

  /**
   * With a new value in [1, 5] and, unless this is the first review, an old average in [1, 5],
   * the running average is in [1, 5].
   */
  lemma RunningAvgInRange(oldAvg: real, count: nat, val: real)
    requires (count == 0 || 1.0 <= oldAvg <= 5.0) && 1.0 <= val <= 5.0
    ensures 1.0 <= RunningAvg(oldAvg, count, val) <= 5.0
  {
    var c := count as real;
    var a := RunningAvg(oldAvg, count, val);
    if count == 0 {
      assert a == (oldAvg * 0.0 + val) / 1.0;
    } else {
      MulBounds(oldAvg, c);
      SumBounds(oldAvg * c, oldAvg * c, val, c);
      QuotientBounds(a, oldAvg * c + val, c + 1.0);
    }
  }

  /** One metric of the aggregate after folding in a review. */
  function FoldedAvg(prev: FacultyDoc, rv: Review, m: Metric): real {
    RunningAvg(AvgOr0(prev, m), CountOf(prev), ValueOf(rv, m))
  }

  /** The aggregate written by the transaction: count + 1 and every average folded. */
  function FoldedDoc(prev: FacultyDoc, rv: Review): (doc: FacultyDoc)
    ensures doc.reviewCount == Some(CountOf(prev) + 1)
    ensures forall m :: m in doc.avgs && doc.avgs[m] == FoldedAvg(prev, rv, m)
  {
    FacultyDoc(Some(CountOf(prev) + 1), MetricMap(m => FoldedAvg(prev, rv, m)))
  }

  /**
   * The transaction body: read the faculty document, write `reviews/{uid}` with the trimmed
   * comment, and merge the new count and averages into the faculty document.
   */
  function IncrementalTx(db: Db, fid: FacultyId, uid: Uid, ratings: Ratings, comment: string): (db': Db)
    ensures db'.reviews == db.reviews[fid := Upsert(ReviewsOf(db, fid), MakeReview(uid, ratings, Trim(comment)))]
    ensures db'.faculties == db.faculties[fid := FoldedDoc(PrevDoc(db, fid), MakeReview(uid, ratings, Trim(comment)))]
    ensures ReviewsOf(db', fid) == Upsert(ReviewsOf(db, fid), MakeReview(uid, ratings, Trim(comment)))
  {
    var rv := MakeReview(uid, ratings, Trim(comment));
    var doc := FoldedDoc(PrevDoc(db, fid), rv);
    Db(db.faculties[fid := doc], db.reviews[fid := Upsert(ReviewsOf(db, fid), rv)])
  }

  /**
   * Every average of the written document is `avg(prev average or 0, submitted value)`, the
   * running mean that `RunningAvg` and `RunningAvgIsMean` describe; on a faculty without a count
   * it is the submitted value itself.
   */
  lemma FoldedAverages(prev: FacultyDoc, uid: Uid, ratings: Ratings, text: string, m: Metric)
    ensures AvgOr0(FoldedDoc(prev, MakeReview(uid, ratings, text)), m)
            == RunningAvg(AvgOr0(prev, m), CountOf(prev), RatingValue(ratings, m))
    ensures CountOf(prev) == 0 ==> AvgOr0(FoldedDoc(prev, MakeReview(uid, ratings, text)), m) == RatingValue(ratings, m)
  {
    if CountOf(prev) == 0 {
      RunningAvgIsMean(AvgOr0(prev, m), 0, 0.0, RatingValue(ratings, m));
    }
  }

  /** The transaction always writes the faculty document, with the count read increased by one. */
  lemma TxCount(db: Db, fid: FacultyId, uid: Uid, ratings: Ratings, comment: string)
    ensures var db' := IncrementalTx(db, fid, uid, ratings, comment);
            fid in db'.faculties && db'.faculties[fid].reviewCount == Some(CountOf(PrevDoc(db, fid)) + 1)
  {
  }

  /**
   * A resubmission is counted again: when the reviewer already has a review and the count matched
   * the number of reviews, afterwards the count is one more than the number of reviews.
   */
  lemma ResubmissionCountedTwice(db: Db, fid: FacultyId, uid: Uid, ratings: Ratings, comment: string)
    requires uid in Reviewers(ReviewsOf(db, fid))
    requires CountOf(PrevDoc(db, fid)) == |ReviewsOf(db, fid)|
    ensures var db' := IncrementalTx(db, fid, uid, ratings, comment);
            db'.faculties[fid].reviewCount == Some(|ReviewsOf(db', fid)| + 1)
  {
    var rv := MakeReview(uid, ratings, Trim(comment));
    var db' := IncrementalTx(db, fid, uid, ratings, comment);
    UpsertLength(ReviewsOf(db, fid), rv);
    assert |ReviewsOf(db', fid)| == |ReviewsOf(db, fid)|;
    var doc := FoldedDoc(PrevDoc(db, fid), rv);
    assert db'.faculties[fid] == doc;
    assert doc.reviewCount == Some(|ReviewsOf(db, fid)| + 1);
  }

  /** The arguments of one run of the transaction: which faculty, which reviewer, what they submitted. */
  datatype TxRequest = TxRequest(facultyId: FacultyId, uid: Uid, ratings: Ratings, comment: string)

  /** The store after a submission: the transaction's writes when it ran and committed. */
  function StoreAfter(db: Db, tx: Option<TxRequest>, commitFails: bool): Db {
    if tx.None? || commitFails then db
    else IncrementalTx(db, tx.value.facultyId, tx.value.uid, tx.value.ratings, tx.value.comment)
  }

  /**
   * The transaction is all or nothing: without a request or with a rejected commit the store is
   * unchanged; a committed request stores the reviewer's review with the trimmed comment, raises
   * the faculty's count by one, and leaves every other faculty as it was.
   */
  lemma StoreAfterAtomic(db: Db, tx: Option<TxRequest>, commitFails: bool)
    ensures tx.None? || commitFails ==> StoreAfter(db, tx, commitFails) == db
    ensures tx.Some? && !commitFails ==>
              var t, db' := tx.value, StoreAfter(db, tx, commitFails);
              && MakeReview(t.uid, t.ratings, Trim(t.comment)) in ReviewsOf(db', t.facultyId)
              && t.facultyId in db'.faculties
              && db'.faculties[t.facultyId].reviewCount == Some(CountOf(PrevDoc(db, t.facultyId)) + 1)
              && forall g :: g != t.facultyId ==> ReviewsOf(db', g) == ReviewsOf(db, g) && PrevDoc(db', g) == PrevDoc(db, g)
  {
    if tx.Some? && !commitFails {
      var t := tx.value;
      TxCount(db, t.facultyId, t.uid, t.ratings, t.comment);
    }
  }

  /** The form of components/ReviewForm.js with its React state. */
  class ReviewForm {
    const facultyId: FacultyId
    var ratings: Ratings
    var comment: string
    var loading: bool
    var error: string

    constructor (facultyId: FacultyId)
      ensures this.facultyId == facultyId
      ensures ratings == Unrated && comment == "" && !loading && error == ""
    {
      this.facultyId := facultyId;
      ratings := Unrated;
      comment := "";
      loading := false;
      error := "";
    }

    /** `handleChange(key, value)`: set one rating and clear the error. */
    method HandleChange(m: Metric, value: int)
      requires m != Overall
      modifies this
      ensures ratings == SetRating(old(ratings), m, value)
      ensures error == "" && comment == old(comment) && loading == old(loading)
    {
      ratings := SetRating(ratings, m, value);
      error := "";
    }

    /** The comment box's `onChange`: set the text and clear the error. */
    method EditComment(text: string)
      modifies this
      ensures comment == text && error == "" && ratings == old(ratings) && loading == old(loading)
    {
      comment := text;
      error := "";
    }

    /**
     * `submit`. It returns the transaction it runs, `None` when a check stops it first; the
     * store after the call is `IncrementalTx` applied to that request when the commit goes
     * through, and the store as it was otherwise. `commitFails` says whether the transaction is
     * rejected (network or permission failure); the transaction is atomic, so then neither
     * document is written.
     */
    method Submit(user: Option<Uid>, commitFails: bool) returns (tx: Option<TxRequest>)
      modifies this
      ensures tx.Some? <==> Validate(user, old(ratings), old(comment)).None?
      ensures tx.Some? ==> tx.value == TxRequest(facultyId, user.value, old(ratings), old(comment))
      ensures tx.None? ==>
                error == Validate(user, old(ratings), old(comment)).value
                && loading == old(loading) && ratings == old(ratings) && comment == old(comment)
      ensures tx.Some? && commitFails ==>
                error == SubmitFailed && !loading && ratings == old(ratings) && comment == old(comment)
      ensures tx.Some? && !commitFails ==>
                error == "" && !loading && ratings == Unrated && comment == ""
    {
      var check := Validate(user, ratings, comment);
      if check.Some? {
        error := check.value;
        return None;
      }
      tx := Some(TxRequest(facultyId, user.value, ratings, comment));
      loading := true;
      if commitFails {
        error := SubmitFailed;
      } else {
        ratings := Unrated;
        comment := "";
        error := "";
      }
      loading := false;
    }
  }
}
