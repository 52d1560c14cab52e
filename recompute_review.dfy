/**
 * The review form of components/ReviewForm.jsx: the reviewer's review is written with merge under
 * their uid, and then `updateFacultyStats` reads the whole review collection, sums every field in
 * a loop and writes the means and the number of reviews into the faculty document.
 */
module RecomputeReview {
  import opened Wrappers
  import opened Store

  const SubmitFailed := "Failed to submit review. Try again."

  /** Why `updateDoc` rejects: the faculty document does not exist. */
  datatype WriteError = NotFound

  /** One average of the recomputed aggregate: the field's sum over the reviews by their number. */
  function StatsAvg(rs: seq<Review>, m: Metric): real
    requires rs != []
  {
    Sum(rs, m) / |rs| as real
  }

  /** The aggregate written for a non-empty review collection. */
  function StatsDoc(rs: seq<Review>): (doc: FacultyDoc)
    requires rs != []
    ensures doc.reviewCount == Some(|rs|)
    ensures forall m :: m in doc.avgs && doc.avgs[m] == StatsAvg(rs, m)
  {
    FacultyDoc(Some(|rs|), MetricMap(m => StatsAvg(rs, m)))
  }

  lemma ScaleBack(a: real, s: real, n: real)
    requires n > 0.0 && a == s / n
    ensures a * n == s
  {
  }

  /**
   * Each written average `a` is the mean of that field over all reviews: times the number of
   * reviews it is the field's sum.
   */
  lemma StatsAverageIsMean(rs: seq<Review>, m: Metric, a: real)
    requires rs != [] && a == StatsDoc(rs).avgs[m]
    ensures a * |rs| as real == Sum(rs, m)
  {
    ScaleBack(a, Sum(rs, m), |rs| as real);
  }

  /** A sum of `n` values that are all at least `lo` is at least `n * lo`. */
  lemma {:induction false} SumLower(rs: seq<Review>, m: Metric, lo: real)
    requires forall i :: 0 <= i < |rs| ==> lo <= ValueOf(rs[i], m)
    ensures Sum(rs, m) >= lo * |rs| as real
  {
    if rs != [] {
      var p := rs[..|rs| - 1];
      SumLower(p, m, lo);
      TimesSucc(|p| as real, lo);
      assert |rs| as real == |p| as real + 1.0;
    }
  }

  /** A sum of `n` values that are all at most `hi` is at most `n * hi`. */
  lemma {:induction false} SumUpper(rs: seq<Review>, m: Metric, hi: real)
    requires forall i :: 0 <= i < |rs| ==> ValueOf(rs[i], m) <= hi
    ensures Sum(rs, m) <= hi * |rs| as real
  {
    if rs != [] {
      var p := rs[..|rs| - 1];
      SumUpper(p, m, hi);
      TimesSucc(|p| as real, hi);
      assert |rs| as real == |p| as real + 1.0;
    }
  }

  lemma TimesSucc(k: real, x: real)
    ensures x * (k + 1.0) == x * k + x
  {
  }

  lemma MeanLower(a: real, s: real, n: real, lo: real)
    requires n > 0.0 && a == s / n && lo * n <= s
    ensures lo <= a
  {
  }

  lemma MeanUpper(a: real, s: real, n: real, hi: real)
    requires n > 0.0 && a == s / n && s <= hi * n
    ensures a <= hi
  {
  }

  lemma StatsAvgOf(rs: seq<Review>, m: Metric)
    requires rs != []
    ensures StatsDoc(rs).avgs[m] == Sum(rs, m) / |rs| as real
  {
  }

  /** When every review's value of a field is at least `lo`, so is the written average. */
  lemma StatsAverageAtLeast(rs: seq<Review>, m: Metric, lo: real)
    requires rs != []
    requires forall i :: 0 <= i < |rs| ==> lo <= ValueOf(rs[i], m)
    ensures lo <= StatsDoc(rs).avgs[m]
  {
    StatsAvgOf(rs, m);
    SumLower(rs, m, lo);
    MeanLower(StatsDoc(rs).avgs[m], Sum(rs, m), |rs| as real, lo);
  }

  /** When every review's value of a field is at most `hi`, so is the written average. */
  lemma StatsAverageAtMost(rs: seq<Review>, m: Metric, hi: real)
    requires rs != []
    requires forall i :: 0 <= i < |rs| ==> ValueOf(rs[i], m) <= hi
    ensures StatsDoc(rs).avgs[m] <= hi
  {
    StatsAvgOf(rs, m);
    SumUpper(rs, m, hi);
    MeanUpper(StatsDoc(rs).avgs[m], Sum(rs, m), |rs| as real, hi);
  }

  /** When every review's value of a field lies in [lo, hi], so does the written average. */
  lemma StatsAverageBounds(rs: seq<Review>, m: Metric, lo: real, hi: real)
    requires rs != []
    requires forall i :: 0 <= i < |rs| ==> lo <= ValueOf(rs[i], m) <= hi
    ensures lo <= StatsDoc(rs).avgs[m] <= hi
  {
    StatsAverageAtLeast(rs, m, lo);
    StatsAverageAtMost(rs, m, hi);
  }

  /**
   * `updateFacultyStats(facultyId)` as a function of the store: nothing is written when the
   * collection is empty, `updateDoc` rejects when the faculty document is missing, and otherwise
   * only the faculty's aggregate changes.
   */
  function Recomputed(db: Db, fid: FacultyId): (r: Result<Db, WriteError>)
    ensures ReviewsOf(db, fid) == [] ==> r == Ok(db)
    ensures ReviewsOf(db, fid) != [] && fid !in db.faculties ==> r == Err(NotFound)
    ensures ReviewsOf(db, fid) != [] && fid in db.faculties ==>
              r.Ok? && r.value.reviews == db.reviews
              && r.value.faculties == db.faculties[fid := StatsDoc(ReviewsOf(db, fid))]
  {
    var rs := ReviewsOf(db, fid);
    if rs == [] then Ok(db)
    else if fid !in db.faculties then Err(NotFound)
    else Ok(db.(faculties := db.faculties[fid := StatsDoc(rs)]))
  }

  /**
   * On a collection keyed by uid, the written count is the number of distinct reviewers, and the
   * review collection itself is left as it was.
   */
  lemma RecomputedCountsReviewers(db: Db, fid: FacultyId)
    requires UniqueReviewers(ReviewsOf(db, fid))
    requires ReviewsOf(db, fid) != [] && fid in db.faculties
    ensures Recomputed(db, fid).Ok?
    ensures Recomputed(db, fid).value.faculties[fid].reviewCount == Some(|Reviewers(ReviewsOf(db, fid))|)
    ensures ReviewsOf(Recomputed(db, fid).value, fid) == ReviewsOf(db, fid)
  {
    UniqueReviewersCount(ReviewsOf(db, fid));
  }

  /** `updateFacultyStats`: the summing loop over the snapshot, then one `updateDoc`. */
  method UpdateFacultyStats(db: Db, fid: FacultyId) returns (r: Result<Db, WriteError>)
    ensures r == Recomputed(db, fid)
  {
    var rs := ReviewsOf(db, fid);
    var total := |rs|;
    if total == 0 {
      return Ok(db);
    }
    var attendance, correction, teaching, approachability, overall := 0.0, 0.0, 0.0, 0.0, 0.0;
    var i := 0;
    while i < total
      invariant 0 <= i <= total
      invariant attendance == Sum(rs[..i], Attendance)
      invariant correction == Sum(rs[..i], Correction)
      invariant teaching == Sum(rs[..i], Teaching)
      invariant approachability == Sum(rs[..i], Approachability)
      invariant overall == Sum(rs[..i], Overall)
    {
      var rv := rs[i];
      assert rs[..i + 1][..i] == rs[..i];
      attendance := attendance + rv.ratings.attendance as real;
      correction := correction + rv.ratings.correction as real;
      teaching := teaching + rv.ratings.teaching as real;
      approachability := approachability + rv.ratings.approachability as real;
      overall := overall + rv.overall;
      i := i + 1;
    }
    assert rs[..total] == rs;
    if fid !in db.faculties {
      return Err(NotFound);
    }
    var n := total as real;
    var avgs := map[Attendance := attendance / n, Correction := correction / n, Teaching := teaching / n,
                    Approachability := approachability / n, Overall := overall / n];
    MetricMapCovers(avgs, m => StatsAvg(rs, m));
    assert avgs == StatsDoc(rs).avgs;
    r := Ok(db.(faculties := db.faculties[fid := FacultyDoc(Some(total), avgs)]));
  }

  /** The store after the review write and the recomputation, or the error `updateDoc` raised. */
  function AfterSubmit(db: Db, fid: FacultyId, uid: Uid, ratings: Ratings, comment: string): Result<Db, WriteError> {
    Recomputed(PutReview(db, fid, MakeReview(uid, ratings, comment)), fid)
  }

  /**
   * A resubmission replaces the reviewer's review and never adds a second one: the count written
   * stays the number of reviews, which is unchanged when the reviewer already had a review and
   * one more when they had none.
   */
  lemma ResubmissionReplaces(db: Db, fid: FacultyId, uid: Uid, ratings: Ratings, comment: string)
    requires UniqueReviewers(ReviewsOf(db, fid))
    requires fid in db.faculties
    ensures AfterSubmit(db, fid, uid, ratings, comment).Ok?
    ensures var db' := AfterSubmit(db, fid, uid, ratings, comment).value;
            && db'.faculties[fid].reviewCount == Some(|ReviewsOf(db', fid)|)
            && UniqueReviewers(ReviewsOf(db', fid))
            && |ReviewsOf(db', fid)| == |ReviewsOf(db, fid)| + (if uid in Reviewers(ReviewsOf(db, fid)) then 0 else 1)
  {
    var rv := MakeReview(uid, ratings, comment);
    UpsertLength(ReviewsOf(db, fid), rv);
    UpsertUnique(ReviewsOf(db, fid), rv);
    assert rv in ReviewsOf(PutReview(db, fid, rv), fid);
  }

  /**
   * The Tailwind highlight of star `k` of a `StarRow`: a non-zero hover value takes precedence
   * over the selected value (`hoverValue ? k <= hoverValue : k <= value`). A missing hover entry
   * is passed as 0, which is falsy like `undefined`.
   */
  predicate StarActive(k: int, value: int, hoverValue: int) {
    if hoverValue != 0 then k <= hoverValue else k <= value
  }

  /** The five stars of a row, star `i + 1` at index `i`. */
  function StarRow(value: int, hoverValue: int): (row: seq<bool>)
    ensures |row| == 5
  {
    seq(5, i => StarActive(i + 1, value, hoverValue))
  }

  /** The value a row displays: the hover value while hovering, the selected value otherwise. */
  function Displayed(value: int, hoverValue: int): int {
    if hoverValue != 0 then hoverValue else value
  }

  /**
   * The lit stars of a row are exactly stars 1..d for the displayed value d: they form a prefix,
   * and hovering shows the row of the hovered value.
   */
  lemma StarRowPrefix(value: int, hoverValue: int)
    ensures forall i :: 0 <= i < 5 ==> (StarRow(value, hoverValue)[i] <==> i < Displayed(value, hoverValue))
    ensures forall i, j :: 0 <= i <= j < 5 && StarRow(value, hoverValue)[j] ==> StarRow(value, hoverValue)[i]
    ensures hoverValue != 0 ==> StarRow(value, hoverValue) == StarRow(hoverValue, 0)
  {
  }

  /**
   * The `try` block of `submitReview` after `setDoc` resolved: the review is in the store, and
   * `ok` says whether `updateFacultyStats` resolved too. `statsFails` says whether its read or
   * update rejects for a reason outside this model.
   */
  method WriteAndRecompute(db: Db, fid: FacultyId, uid: Uid, ratings: Ratings, comment: string, statsFails: bool)
    returns (db': Db, ok: bool)
    ensures ok <==> !statsFails && AfterSubmit(db, fid, uid, ratings, comment).Ok?
    ensures ok ==> db' == AfterSubmit(db, fid, uid, ratings, comment).value
    ensures !ok ==> db' == PutReview(db, fid, MakeReview(uid, ratings, comment))
  {
    db' := PutReview(db, fid, MakeReview(uid, ratings, comment));
    var stats := UpdateFacultyStats(db', fid);
    if !statsFails && stats.Ok? {
      db' := stats.value;
      ok := true;
    } else {
      ok := false;
    }
  }

  /**
   * The guard of `submitReview`: without a user, with a rating still 0, with a trimmed comment
   * shorter than 10 code units or while a submission is in flight it returns at once.
   */
  predicate SubmitBlocked(user: Option<Uid>, ratings: Ratings, comment: string, submitting: bool) {
    user.None? || !AllRated(ratings) || !CommentValid(comment) || submitting
  }

  /** The form of components/ReviewForm.jsx with its React state. */
  class ReviewForm {
    const facultyId: FacultyId
    var ratings: Ratings
    var comment: string
    /** `hover`: the hovered star per metric; a missing key is `undefined`. */
    var hover: map<Metric, int>
    var submitting: bool
    var error: Option<string>

    constructor (facultyId: FacultyId)
      ensures this.facultyId == facultyId
      ensures ratings == Unrated && comment == "" && hover == map[] && !submitting && error == None
    {
      this.facultyId := facultyId;
      ratings := Unrated;
      comment := "";
      hover := map[];
      submitting := false;
      error := None;
    }

    /** The hover value passed to the row of metric `m` (0 for a missing key). */
    function HoverValue(m: Metric): int
      reads this
    {
      if m in hover then hover[m] else 0
    }

    /** `onSelect(v)` of a star row: the rating of that metric becomes `v`. */
    method Select(m: Metric, v: int)
      requires m != Overall
      modifies this
      ensures ratings == SetRating(old(ratings), m, v)
      ensures comment == old(comment) && hover == old(hover) && submitting == old(submitting) && error == old(error)
    {
      ratings := SetRating(ratings, m, v);
    }

    /** `onHover(v)` and `onLeave()` (which hovers 0) of a star row. */
    method Hover(m: Metric, v: int)
      modifies this
      ensures hover == old(hover)[m := v] && HoverValue(m) == v
      ensures ratings == old(ratings) && comment == old(comment) && submitting == old(submitting) && error == old(error)
    {
      hover := hover[m := v];
    }

    /** The comment box's `onChange`; unlike the form of ReviewForm.js it leaves the error as it is. */
    method EditComment(text: string)
      modifies this
      ensures comment == text
      ensures ratings == old(ratings) && hover == old(hover) && submitting == old(submitting) && error == old(error)
    {
      comment := text;
    }

    /**
     * `submitReview`. `writeFails` says whether `setDoc` rejects, `statsFails` whether the
     * collection read or the aggregate update rejects for a reason outside this model (network,
     * permissions); a missing faculty document makes the update reject as well. A rejected
     * update leaves the review already written.
     */
    method SubmitReview(user: Option<Uid>, db: Db, writeFails: bool, statsFails: bool) returns (db': Db)
      modifies this
      ensures hover == old(hover)
      ensures SubmitBlocked(user, old(ratings), old(comment), old(submitting)) ==>
                db' == db && ratings == old(ratings) && comment == old(comment)
                && submitting == old(submitting) && error == old(error)
      ensures !SubmitBlocked(user, old(ratings), old(comment), old(submitting)) ==>
                SubmitOutcome(db, user.value, old(ratings), old(comment), writeFails, statsFails, db')
    {
      if SubmitBlocked(user, ratings, comment, submitting) {
        return db;
      }
      db' := Proceed(db, user.value, writeFails, statsFails);
    }

    /**
     * What a submission that passed the guard leaves behind: on a rejected `setDoc` the store as
     * it was, on a rejected recomputation the store with the review written, and in both cases
     * the error message with the inputs kept; on success the recomputed store, no error and a
     * reset form. The flag `submitting` is cleared in every case.
     */
    predicate SubmitOutcome(db: Db, uid: Uid, r0: Ratings, c0: string, writeFails: bool, statsFails: bool, db': Db)
      reads this
    {
      && !submitting
      && (if writeFails then
            db' == db && error == Some(SubmitFailed) && ratings == r0 && comment == c0
          else if statsFails || AfterSubmit(db, facultyId, uid, r0, c0).Err? then
            db' == PutReview(db, facultyId, MakeReview(uid, r0, c0))
            && error == Some(SubmitFailed) && ratings == r0 && comment == c0
          else
            db' == AfterSubmit(db, facultyId, uid, r0, c0).value
            && error == None && ratings == Unrated && comment == "")
    }

    /** The `try`/`catch`/`finally` of `submitReview`, entered once the guard has passed. */
    method Proceed(db: Db, uid: Uid, writeFails: bool, statsFails: bool) returns (db': Db)
      modifies this
      ensures hover == old(hover)
      ensures SubmitOutcome(db, uid, old(ratings), old(comment), writeFails, statsFails, db')
    {
      db' := db;
      submitting := true;
      error := None;
      if writeFails {
        error := Some(SubmitFailed);
      } else {
        var ok;
        db', ok := WriteAndRecompute(db, facultyId, uid, ratings, comment, statsFails);
        if ok {
          comment := "";
          ratings := Unrated;
        } else {
          error := Some(SubmitFailed);
        }
      }
      submitting := false;
    }
  }
}
