/**
 * The two ways the application keeps a faculty's aggregate, run over a sequence of submissions:
 * the incremental transaction of components/ReviewForm.js and the write-then-recompute of
 * components/ReviewForm.jsx. For first-time submissions by distinct reviewers on a faculty without
 * reviews they produce the same count and the same averages; a reviewer who submits twice, or a
 * faculty document that does not exist, makes them disagree.
 */
module Aggregation {
  import opened Wrappers
  import opened JsStrings
  import opened Store
  import opened IncrementalReview
  import opened RecomputeReview

  /** One successful pass through a review form: who submitted, the four ratings and the comment. */
  datatype Submission = Submission(uid: Uid, ratings: Ratings, comment: string)

  /** The submissions come from different reviewers. */
  predicate DistinctReviewers(subs: seq<Submission>) {
    forall i, j :: 0 <= i < j < |subs| ==> subs[i].uid != subs[j].uid
  }

  /** A faculty document that exists and has no count yet, and an empty review collection. */
  predicate FreshFaculty(db: Db, fid: FacultyId) {
    fid in db.faculties && CountOf(db.faculties[fid]) == 0 && ReviewsOf(db, fid) == []
  }

  /** The submissions applied in order by the incremental transaction. */
  function RunIncremental(db: Db, fid: FacultyId, subs: seq<Submission>): Db {
    if subs == [] then db
    else
      var s := subs[|subs| - 1];
      IncrementalTx(RunIncremental(db, fid, subs[..|subs| - 1]), fid, s.uid, s.ratings, s.comment)
  }

  /** The submissions applied in order by write-then-recompute; the first rejected update stops the run. */
  function RunRecompute(db: Db, fid: FacultyId, subs: seq<Submission>): Result<Db, WriteError> {
    if subs == [] then Ok(db)
    else
      var s := subs[|subs| - 1];
      match RunRecompute(db, fid, subs[..|subs| - 1])
      case Err(e) => Err(e)
      case Ok(d) => AfterSubmit(d, fid, s.uid, s.ratings, s.comment)
  }

  /** The values the submissions give one metric, in order. */
  function Values(subs: seq<Submission>, m: Metric): (vals: seq<real>)
    ensures |vals| == |subs|
    ensures forall i :: 0 <= i < |subs| ==> vals[i] == RatingValue(subs[i].ratings, m)
  {
    seq(|subs|, i requires 0 <= i < |subs| => RatingValue(subs[i].ratings, m))
  }

  lemma ValuesPrefix(subs: seq<Submission>, m: Metric)
    requires subs != []
    ensures Values(subs, m) == Values(subs[..|subs| - 1], m) + [RatingValue(subs[|subs| - 1].ratings, m)]
  {
  }

  /** The sum of a sequence of values. */
  function SeqSum(vals: seq<real>): real {
    if vals == [] then 0.0 else SeqSum(vals[..|vals| - 1]) + vals[|vals| - 1]
  }

  /**
   * The running average of ReviewForm.js folded over values in order, starting from a document
   * whose average is `a0` and whose count is 0.
   */
  function RunningMean(a0: real, vals: seq<real>): real {
    if vals == [] then a0 else RunningAvg(RunningMean(a0, vals[..|vals| - 1]), |vals| - 1, vals[|vals| - 1])
  }

  lemma DivCongruence(x1: real, x2: real, n1: real, n2: real)
    requires x1 == x2 && n1 == n2 && n1 != 0.0
    ensures x1 / n1 == x2 / n2
  {
  }

  /** One fold of the running average of the mean of `k` values is the mean of `k + 1` values. */
  lemma MeanFold(s: real, k: nat, v: real, r: real)
    requires k > 0 && r == s / k as real
    ensures RunningAvg(r, k, v) == (s + v) / (k + 1) as real
  {
    DivMul(r, s, k as real);
    RunningAvgIsMean(r, k, s, v);
  }

  /** Folding the running average over a non-empty sequence gives its arithmetic mean. */
  lemma {:induction false} RunningMeanIsMean(a0: real, vals: seq<real>)
    requires vals != []
    ensures RunningMean(a0, vals) == SeqSum(vals) / |vals| as real
  {
    var p, v := vals[..|vals| - 1], vals[|vals| - 1];
    if p == [] {
      RunningAvgIsMean(a0, 0, 0.0, v);
      DivCongruence(v, SeqSum(vals), 1.0, |vals| as real);
    } else {
      RunningMeanIsMean(a0, p);
      MeanFold(SeqSum(p), |p|, v, RunningMean(a0, p));
      DivCongruence(SeqSum(p) + v, SeqSum(vals), (|p| + 1) as real, |vals| as real);
    }
  }

  /** The review documents the recomputing form writes for the submissions, in order. */
  function ReviewList(subs: seq<Submission>): (rs: seq<Review>)
    ensures |rs| == |subs|
    ensures forall i :: 0 <= i < |subs| ==> rs[i] == MakeReview(subs[i].uid, subs[i].ratings, subs[i].comment)
  {
    if subs == [] then []
    else
      var s := subs[|subs| - 1];
      ReviewList(subs[..|subs| - 1]) + [MakeReview(s.uid, s.ratings, s.comment)]
  }

  /** Summing the stored reviews is summing the submitted ratings. */
  lemma {:induction false} ReviewListSum(subs: seq<Submission>, m: Metric)
    ensures Sum(ReviewList(subs), m) == SeqSum(Values(subs, m))
  {
    if subs != [] {
      var rs := ReviewList(subs);
      assert rs[..|rs| - 1] == ReviewList(subs[..|subs| - 1]);
      ReviewListSum(subs[..|subs| - 1], m);
      ValuesPrefix(subs, m);
      var vals := Values(subs, m);
      assert vals[..|vals| - 1] == Values(subs[..|subs| - 1], m);
    }
  }

  /** Distinct reviewers give a review list keyed by uid. */
  lemma {:induction false} ReviewListUnique(subs: seq<Submission>)
    requires DistinctReviewers(subs)
    ensures UniqueReviewers(ReviewList(subs))
  {
    if subs != [] {
      var p, s := subs[..|subs| - 1], subs[|subs| - 1];
      ReviewListUnique(p);
      LastIsNewReviewer(subs);
      UniqueSnoc(ReviewList(p), MakeReview(s.uid, s.ratings, s.comment));
    }
  }

  /** A reviewer who submitted later is not among the authors of the earlier reviews. */
  lemma LastIsNewReviewer(subs: seq<Submission>)
    requires subs != [] && DistinctReviewers(subs)
    ensures subs[|subs| - 1].uid !in Reviewers(ReviewList(subs[..|subs| - 1]))
  {
    var rs := ReviewList(subs[..|subs| - 1]);
    forall i | 0 <= i < |rs| ensures rs[i].userId != subs[|subs| - 1].uid {
      assert rs[i].userId == subs[i].uid;
    }
  }

  /** The incremental run counts every submission. */
  lemma {:induction false} IncrementalRunCount(db: Db, fid: FacultyId, subs: seq<Submission>)
    requires FreshFaculty(db, fid)
    ensures fid in RunIncremental(db, fid, subs).faculties
    ensures CountOf(PrevDoc(RunIncremental(db, fid, subs), fid)) == |subs|
  {
    if subs != [] {
      IncrementalRunCount(db, fid, subs[..|subs| - 1]);
    }
  }

  /** Each average after the incremental run is the running average folded over the submitted values. */
  lemma {:induction false} IncrementalRunAvg(db: Db, fid: FacultyId, subs: seq<Submission>, m: Metric)
    requires FreshFaculty(db, fid)
    ensures AvgOr0(PrevDoc(RunIncremental(db, fid, subs), fid), m)
            == RunningMean(AvgOr0(db.faculties[fid], m), Values(subs, m))
  {
    if subs != [] {
      var p, s := subs[..|subs| - 1], subs[|subs| - 1];
      var prev := PrevDoc(RunIncremental(db, fid, p), fid);
      IncrementalRunAvg(db, fid, p, m);
      IncrementalRunCount(db, fid, p);
      FoldedAverages(prev, s.uid, s.ratings, Trim(s.comment), m);
      ValuesPrefix(subs, m);
      var vals := Values(subs, m);
      assert vals[..|vals| - 1] == Values(p, m);
    }
  }

  /**
   * The recomputing run never rejects on a fresh faculty with distinct reviewers: the review
   * collection is exactly the submitted reviews in order and, once there is one, the aggregate
   * is the recomputation over them.
   */
  lemma {:induction false} RecomputeRunState(db: Db, fid: FacultyId, subs: seq<Submission>)
    requires FreshFaculty(db, fid) && DistinctReviewers(subs)
    ensures RunRecompute(db, fid, subs).Ok?
    ensures fid in RunRecompute(db, fid, subs).value.faculties
    ensures ReviewsOf(RunRecompute(db, fid, subs).value, fid) == ReviewList(subs)
    ensures subs != [] ==> RunRecompute(db, fid, subs).value.faculties[fid] == StatsDoc(ReviewList(subs))
  {
    if subs != [] {
      var p, s := subs[..|subs| - 1], subs[|subs| - 1];
      RecomputeRunState(db, fid, p);
      var rv := MakeReview(s.uid, s.ratings, s.comment);
      ReviewListUnique(p);
      LastIsNewReviewer(subs);
      UpsertLength(ReviewList(p), rv);
      assert ReviewList(subs) == ReviewList(p) + [rv];
    }
  }

  /**
   * The two strategies agree: for first-time submissions by distinct reviewers on a faculty
   * without reviews, the recomputing run succeeds, both write the number of submissions as the
   * count, and every average they write is the same.
   */
  lemma StrategiesAgree(db: Db, fid: FacultyId, subs: seq<Submission>, m: Metric)
    requires FreshFaculty(db, fid) && DistinctReviewers(subs) && subs != []
    ensures RunRecompute(db, fid, subs).Ok?
    ensures var inc := PrevDoc(RunIncremental(db, fid, subs), fid);
            var rec := PrevDoc(RunRecompute(db, fid, subs).value, fid);
            && inc.reviewCount == rec.reviewCount == Some(|subs|)
            && AvgOr0(inc, m) == AvgOr0(rec, m)
  {
    RecomputeRunState(db, fid, subs);
    IncrementalRunCount(db, fid, subs);
    IncrementalRunAvg(db, fid, subs, m);
    RunningMeanIsMean(AvgOr0(db.faculties[fid], m), Values(subs, m));
    var rs := ReviewList(subs);
    ReviewListSum(subs, m);
    DivCongruence(SeqSum(Values(subs, m)), Sum(rs, m), |Values(subs, m)| as real, |rs| as real);
  }

  /** Two folds of the running average from a count of 0 give the mean of the two values. */
  lemma TwoValueMean(a0: real, vals: seq<real>, v1: real, v2: real)
    requires vals == [v1, v2]
    ensures RunningMean(a0, vals) == (v1 + v2) / 2.0
  {
    RunningMeanIsMean(a0, vals);
    assert vals[..1] == [v1];
    assert [v1][..0] == [];
    DivCongruence(SeqSum(vals), v1 + v2, |vals| as real, 2.0);
  }

  /**
   * A reviewer who submits twice on a fresh faculty, under the incremental form: the count is 2
   * while only one review exists.
   */
  lemma ResubmissionIncremental(db: Db, fid: FacultyId, uid: Uid, first: Ratings, second: Ratings, c1: string, c2: string)
    requires FreshFaculty(db, fid)
    ensures var inc := RunIncremental(db, fid, [Submission(uid, first, c1), Submission(uid, second, c2)]);
            && PrevDoc(inc, fid).reviewCount == Some(2)
            && |ReviewsOf(inc, fid)| == 1
  {
    var s1, s2 := Submission(uid, first, c1), Submission(uid, second, c2);
    var subs := [s1, s2];
    assert subs[..1] == [s1];
    assert [s1][..0] == [];
    IncrementalRunCount(db, fid, subs);
    var r1 := MakeReview(uid, first, Trim(c1));
    var r2 := MakeReview(uid, second, Trim(c2));
    assert ReviewsOf(RunIncremental(db, fid, [s1]), fid) == [r1];
    assert Upsert([r1], r2) == [r2];
  }

  /**
   * After two incremental submissions on a fresh faculty every average is the mean of both, also
   * when they come from the same reviewer and only the second review is stored.
   */
  lemma ResubmissionIncrementalAvg(db: Db, fid: FacultyId, subs: seq<Submission>, m: Metric)
    requires FreshFaculty(db, fid) && |subs| == 2
    ensures AvgOr0(PrevDoc(RunIncremental(db, fid, subs), fid), m)
            == (RatingValue(subs[0].ratings, m) + RatingValue(subs[1].ratings, m)) / 2.0
  {
    var vals := Values(subs, m);
    var v1, v2 := RatingValue(subs[0].ratings, m), RatingValue(subs[1].ratings, m);
    assert vals == [v1, v2];
    IncrementalRunAvg(db, fid, subs, m);
    TwoValueMean(AvgOr0(db.faculties[fid], m), vals, v1, v2);
  }

  /**
   * One submission of the recomputing form on an existing faculty document: the review is
   * written by uid and the aggregate is recomputed over the collection that results.
   */
  lemma AfterSubmitWrites(db: Db, fid: FacultyId, uid: Uid, ratings: Ratings, comment: string)
    requires fid in db.faculties
    ensures var r := AfterSubmit(db, fid, uid, ratings, comment);
            && r.Ok? && fid in r.value.faculties
            && ReviewsOf(r.value, fid) == Upsert(ReviewsOf(db, fid), MakeReview(uid, ratings, comment))
            && r.value.faculties[fid] == StatsDoc(ReviewsOf(r.value, fid))
  {
    var rv := MakeReview(uid, ratings, comment);
    assert rv in ReviewsOf(PutReview(db, fid, rv), fid);
  }

  /** Over a single review, every recomputed average is that review's value. */
  lemma SingleReviewStats(rv: Review, m: Metric)
    ensures StatsDoc([rv]).avgs[m] == ValueOf(rv, m)
  {
    assert [rv][..0] == [];
    assert Sum([rv], m) == ValueOf(rv, m);
    assert StatsAvg([rv], m) == ValueOf(rv, m) / 1.0;
  }

  /** A two-step run of the recomputing form is its two `AfterSubmit` calls in order. */
  lemma RunRecomputeTwo(db: Db, fid: FacultyId, s1: Submission, s2: Submission)
    ensures RunRecompute(db, fid, [s1, s2])
            == match AfterSubmit(db, fid, s1.uid, s1.ratings, s1.comment)
               case Err(e) => Err(e)
               case Ok(d) => AfterSubmit(d, fid, s2.uid, s2.ratings, s2.comment)
  {
    assert [s1, s2][..1] == [s1];
    assert [s1][..0] == [];
    assert RunRecompute(db, fid, []) == Ok(db);
  }

  /**
   * The same two submissions under the recomputing form: the second replaces the first, the
   * count is 1 and the average is the second submission's value.
   */
  lemma ResubmissionRecompute(db: Db, fid: FacultyId, uid: Uid, first: Ratings, second: Ratings, c1: string, c2: string, m: Metric)
    requires FreshFaculty(db, fid)
    ensures var rec := RunRecompute(db, fid, [Submission(uid, first, c1), Submission(uid, second, c2)]);
            && rec.Ok?
            && PrevDoc(rec.value, fid).reviewCount == Some(1)
            && |ReviewsOf(rec.value, fid)| == 1
            && AvgOr0(PrevDoc(rec.value, fid), m) == RatingValue(second, m)
  {
    var r1 := MakeReview(uid, first, c1);
    var r2 := MakeReview(uid, second, c2);
    RunRecomputeTwo(db, fid, Submission(uid, first, c1), Submission(uid, second, c2));
    AfterSubmitWrites(db, fid, uid, first, c1);
    var d1 := AfterSubmit(db, fid, uid, first, c1).value;
    assert ReviewsOf(d1, fid) == [r1];
    AfterSubmitWrites(d1, fid, uid, second, c2);
    var d2 := AfterSubmit(d1, fid, uid, second, c2).value;
    assert Upsert([r1], r2) == [r2];
    assert ReviewsOf(d2, fid) == [r2];
    SingleReviewStats(r2, m);
  }

  /** The incremental transaction on a missing faculty document creates it with a count of 1. */
  lemma MissingFacultyCreated(db: Db, fid: FacultyId, s: Submission)
    requires fid !in db.faculties
    ensures PrevDoc(RunIncremental(db, fid, [s]), fid).reviewCount == Some(1)
  {
    assert [s][..0] == [];
    assert RunIncremental(db, fid, [s]) == IncrementalTx(db, fid, s.uid, s.ratings, s.comment);
    TxCount(db, fid, s.uid, s.ratings, s.comment);
    assert CountOf(PrevDoc(db, fid)) == 0;
  }

  /** The recomputing form on a missing faculty document writes the review, then `updateDoc` rejects. */
  lemma MissingFacultyRejected(db: Db, fid: FacultyId, s: Submission)
    requires fid !in db.faculties
    ensures RunRecompute(db, fid, [s]) == Err(NotFound)
  {
    assert [s][..0] == [];
    assert RunRecompute(db, fid, [s]) == AfterSubmit(db, fid, s.uid, s.ratings, s.comment);
    var rv := MakeReview(s.uid, s.ratings, s.comment);
    assert rv in ReviewsOf(PutReview(db, fid, rv), fid);
  }

  /**
   * When the faculty document does not exist, the incremental transaction creates it with a
   * count of 1, while the recomputing form writes the review and then fails on `updateDoc`.
   */
  lemma MissingFacultyDiverges(db: Db, fid: FacultyId, s: Submission)
    requires fid !in db.faculties
    ensures PrevDoc(RunIncremental(db, fid, [s]), fid).reviewCount == Some(1)
    ensures RunRecompute(db, fid, [s]) == Err(NotFound)
  {
    MissingFacultyCreated(db, fid, s);
    MissingFacultyRejected(db, fid, s);
  }
}
